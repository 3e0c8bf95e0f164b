/**
  Which values the encoders take: scalars that fit, arrays as long as their counts, unions that
  hold the selected member, links the chain lists and that have no chain of their own. Nothing
  is asked of what is not sent.
 */
module Typing {
  import opened Options
  import opened Wire
  import opened Schema
  import opened Codec
  import opened Delivery
  import opened RoundTrip
  import opened Commands

  predicate TypedElem(reg: Registry, e: Elem, partial: bool, v: Value)
    decreases v, 1
  {
    match e
    case Scalar(w, _) => v.Num? && v.n < Base(w)
    case Handle(_) => v.Num? && v.n < Base(8)
    case Struct(j) => TypedStruct(reg, j, partial, v)
    case Union(u) => TypedUnion(reg, u, v) && reg[u].cases[v.case_].tags != []
  }

  predicate TypedUnion(reg: Registry, u: nat, v: Value)
    decreases v, 0
  {
    && u < |reg| && reg[u].UnionDef? && v.Variant? && v.case_ < |reg[u].cases|
    && TypedField(reg, reg[u].cases[v.case_].member, Valid, [], v.member)
  }

  predicate TypedStruct(reg: Registry, i: nat, partial: bool, v: Value)
    decreases v, 0
  {
    && IsStruct(reg, i) && v.Rec?
    && (if reg[i].stype.None? then v.links == [] else TypedLinks(reg, reg[i].chain, partial, v.links))
    && TypedBody(reg, reg[i], partial, v.fields)
  }

  predicate TypedBody(reg: Registry, def: TypeDef, partial: bool, vals: seq<Value>)
    requires def.StructDef?
    decreases vals, |vals| + 1
  {
    |vals| == |def.fields| && TypedFields(reg, def.fields, BodyPlan(def, partial), vals, 0)
  }

  predicate TypedLinks(reg: Registry, chain: seq<nat>, partial: bool, links: seq<Link>)
    decreases links, |links|
  {
    links == [] || (TypedLink(reg, chain, partial, links[0]) && TypedLinks(reg, chain, partial, links[1..]))
  }

  predicate TypedLink(reg: Registry, chain: seq<nat>, partial: bool, l: Link)
    decreases l
  {
    && l.ty in chain && IsStruct(reg, l.ty) && l.body.Rec? && l.body.links == []
    && TypedBody(reg, reg[l.ty], partial, l.body.fields)
  }

  predicate TypedFields(reg: Registry, fs: seq<Field>, plan: seq<Treatment>, vals: seq<Value>, k: nat)
    requires |plan| == |fs| == |vals| && k <= |fs|
    decreases vals, |vals| - k
  {
    k == |fs| || (&& (plan[k].Skipped? || TypedField(reg, fs[k], plan[k], vals, vals[k]))
                  && TypedFields(reg, fs, plan, vals, k + 1))
  }

  predicate MaybeArray(v: Value) {
    v == Null || v.Arr?
  }

  /** As many elements as counted, in a number that fits the wire. */
  predicate AsCounted(n: nat, v: Value) {
    |Elems(v)| == n < Base(8)
  }

  predicate TypedField(reg: Registry, f: Field, t: Treatment, vals: seq<Value>, v: Value)
    decreases v, 2
  {
    match f.shape
    case NullOnly(_) => true
    case Stride(_) => true
    case Plain(e) => t.Invalid? || TypedElem(reg, e, t.Partial?, v)
    case Selected(u, sel) =>
      && !t.Invalid? && sel < |vals| && vals[sel].Num?
      && TypedUnion(reg, u, v) && vals[sel].n in reg[u].cases[v.case_].tags
    case Static(e, n) => t.Invalid? || (v.Arr? && |v.elems| == n && TypedElems(reg, e, t.Partial?, v.elems, 0))
    case Ptr(e) => v == Null || (v.Ref? && (t.Invalid? || TypedElem(reg, e, t.Partial?, v.target)))
    case Str => v == Null || TypedString(v)
    case Dyn(e, c) =>
      && MaybeArray(v)
      && (if t.Invalid? then v == Null || Size(c, vals, 0) < Base(8)
          else if !Sent(f, vals, v) then true
          else if WidthlessElem(reg, e, t) then Size(c, vals, 0) < Base(8)
          else AsCounted(Size(c, vals, 0), v) && (v.Arr? ==> TypedElems(reg, e, t.Partial?, v.elems, 0)))
    case Nested(e, c, inner) =>
      && !t.Invalid? && MaybeArray(v)
      && (Sent(f, vals, v) ==>
            AsCounted(Size(c, vals, 0), v) && (v.Arr? ==> TypedRows(reg, e, inner, vals, v.elems, 0)))
    case StrArray(c) =>
      && !t.Invalid? && MaybeArray(v)
      && (Sent(f, vals, v) ==> AsCounted(Size(c, vals, 0), v) && forall s | s in Elems(v) :: TypedString(s))
  }

  predicate TypedString(v: Value) {
    v.Text? && |v.bytes| + 1 < Base(8)
  }

  predicate TypedElems(reg: Registry, e: Elem, partial: bool, vs: seq<Value>, k: nat)
    requires k <= |vs|
    decreases vs, 0, |vs| - k
  {
    k == |vs| || (TypedElem(reg, e, partial, vs[k]) && TypedElems(reg, e, partial, vs, k + 1))
  }

  predicate TypedRows(reg: Registry, e: Elem, inner: Count, vals: seq<Value>, rows: seq<Value>, k: nat)
    requires k <= |rows|
    decreases rows, 0, |rows| - k
  {
    k == |rows| || (&& rows[k].Arr? && |rows[k].elems| == Size(inner, vals, k) < Base(8)
                    && TypedElems(reg, e, false, rows[k].elems, 0)
                    && TypedRows(reg, e, inner, vals, rows, k + 1))
  }

  // ---- the encoders take exactly these --------------------------------------------------------

  lemma {:induction false} ElemEncodes(reg: Registry, e: Elem, partial: bool, v: Value)
    ensures EncElem(reg, e, partial, v).Some? <==> TypedElem(reg, e, partial, v)
    decreases v, 1
  {
    match e
    case Struct(j) => StructEncodes(reg, j, partial, v);
    case Union(u) =>
      if u < |reg| && reg[u].UnionDef? && v.Variant? && v.case_ < |reg[u].cases| && reg[u].cases[v.case_].tags != [] {
        UnionEncodes(reg, u, reg[u].cases[v.case_].tags[0], v);
      }
    case _ =>
  }

  lemma {:induction false} UnionEncodes(reg: Registry, u: nat, tag: nat, v: Value)
    ensures EncUnion(reg, u, tag, v).Some? <==> TypedUnion(reg, u, v) && tag in reg[u].cases[v.case_].tags
    decreases v, 0
  {
    if u < |reg| && reg[u].UnionDef? && v.Variant? && v.case_ < |reg[u].cases| {
      FieldEncodes(reg, reg[u].cases[v.case_].member, Valid, [], v.member);
    }
  }

  /** A structure encodes exactly when its value is of the type. */
  lemma {:induction false} StructEncodes(reg: Registry, i: nat, partial: bool, v: Value)
    ensures EncStruct(reg, i, partial, v).Some? <==> TypedStruct(reg, i, partial, v)
    decreases v, 0
  {
    if IsStruct(reg, i) && v.Rec? {
      LinksEncode(reg, reg[i].chain, partial, v.links);
      BodyEncodes(reg, reg[i], partial, v.fields);
      assert EncHead(reg, reg[i], partial, v.links).Some? <==>
        if reg[i].stype.None? then v.links == [] else EncChain(reg, reg[i].chain, partial, v.links).Some?;
    }
  }

  lemma {:induction false} BodyEncodes(reg: Registry, def: TypeDef, partial: bool, vals: seq<Value>)
    requires def.StructDef?
    ensures EncBody(reg, def, partial, vals).Some? <==> TypedBody(reg, def, partial, vals)
    decreases vals, |vals| + 1
  {
    if |vals| == |def.fields| {
      FieldsEncode(reg, def.fields, BodyPlan(def, partial), vals, 0);
    }
  }

  lemma {:induction false} LinksEncode(reg: Registry, chain: seq<nat>, partial: bool, links: seq<Link>)
    ensures EncBodies(reg, chain, partial, links).Some? <==> TypedLinks(reg, chain, partial, links)
    ensures EncChain(reg, chain, partial, links).Some? <==> TypedLinks(reg, chain, partial, links)
    decreases links, |links|
  {
    if links != [] {
      LinkEncodes(reg, chain, partial, links[0]);
      LinksEncode(reg, chain, partial, links[1..]);
    }
  }

  lemma {:induction false} LinkEncodes(reg: Registry, chain: seq<nat>, partial: bool, l: Link)
    ensures EncLink(reg, chain, partial, l).Some? <==> TypedLink(reg, chain, partial, l)
    decreases l
  {
    if IsStruct(reg, l.ty) && l.body.Rec? {
      BodyEncodes(reg, reg[l.ty], partial, l.body.fields);
    }
  }

  lemma {:induction false} FieldsEncode(reg: Registry, fs: seq<Field>, plan: seq<Treatment>, vals: seq<Value>, k: nat)
    requires |plan| == |fs| == |vals| && k <= |fs|
    ensures EncFields(reg, fs, plan, vals, k).Some? <==> TypedFields(reg, fs, plan, vals, k)
    decreases vals, |vals| - k
  {
    if k < |fs| {
      FieldsEncode(reg, fs, plan, vals, k + 1);
      FieldEncodes(reg, fs[k], plan[k], vals, vals[k]);
    }
  }

  lemma {:induction false} FieldEncodes(reg: Registry, f: Field, t: Treatment, vals: seq<Value>, v: Value)
    ensures EncField(reg, f, t, vals, v).Some? <==> TypedField(reg, f, t, vals, v)
    decreases v, 2
  {
    hide Size, Sent, EncDyn, EncNested, EncStrArray, EncElem, EncRun, EncUnion, TypedElem, TypedElems, TypedRows,
      TypedUnion, WidthlessElem, AsCounted, Base;
    match f.shape
    case Plain(e) => ElemEncodes(reg, e, t.Partial?, v);
    case Selected(u, sel) => if sel < |vals| && vals[sel].Num? { UnionEncodes(reg, u, vals[sel].n, v); }
    case Static(e, _) => if v.Arr? { RunEncodes(reg, e, t.Partial?, v.elems); }
    case Ptr(e) => if v.Ref? { ElemEncodes(reg, e, t.Partial?, v.target); }
    case Dyn(e, c) => DynEncodes(reg, f, e, Size(c, vals, 0), t, vals, v);
    case Nested(e, c, inner) => NestedEncodes(reg, f, e, Size(c, vals, 0), inner, vals, v);
    case StrArray(c) => StrArrayEncodes(f, Size(c, vals, 0), vals, v);
    case _ =>
  }

  lemma {:induction false} DynEncodes(reg: Registry, f: Field, e: Elem, n: nat, t: Treatment, vals: seq<Value>,
                                      v: Value)
    ensures EncDyn(reg, f, e, n, t, vals, v).Some? <==>
            && MaybeArray(v)
            && (if t.Invalid? then v == Null || n < Base(8)
                else if !Sent(f, vals, v) then true
                else if WidthlessElem(reg, e, t) then n < Base(8)
                else AsCounted(n, v) && (v.Arr? ==> TypedElems(reg, e, t.Partial?, v.elems, 0)))
    decreases v, 1
  {
    hide Sent, Le, EncRun, WidthlessElem;
    if v.Arr? {
      RunEncodes(reg, e, t.Partial?, v.elems);
    }
  }

  lemma {:induction false} NestedEncodes(reg: Registry, f: Field, e: Elem, n: nat, inner: Count, vals: seq<Value>,
                                         v: Value)
    ensures EncNested(reg, f, e, n, inner, vals, v).Some? <==>
            && MaybeArray(v)
            && (Sent(f, vals, v) ==> AsCounted(n, v) && (v.Arr? ==> TypedRows(reg, e, inner, vals, v.elems, 0)))
    decreases v, 1
  {
    hide Sent, Le, EncRows;
    if v.Arr? {
      RowsEncode(reg, e, inner, vals, v.elems, 0);
    }
  }

  lemma StrArrayEncodes(f: Field, n: nat, vals: seq<Value>, v: Value)
    ensures EncStrArray(f, n, vals, v).Some? <==>
            MaybeArray(v) && (Sent(f, vals, v) ==> AsCounted(n, v) && forall s | s in Elems(v) :: TypedString(s))
  {
    hide Sent, Le, EncStrings;
    StringsEncode(Elems(v));
  }

  lemma {:induction false} StringsEncode(vs: seq<Value>)
    ensures EncStrings(vs).Some? <==> forall s | s in vs :: TypedString(s)
  {
    if vs != [] {
      StringsEncode(vs[1..]);
      assert vs[0] in vs && forall s | s in vs :: s == vs[0] || s in vs[1..];
      assert forall s | s in vs[1..] :: s in vs;
    }
  }

  lemma {:induction false} RunEncodes(reg: Registry, e: Elem, partial: bool, vs: seq<Value>)
    ensures EncRun(reg, e, partial, vs).Some? <==> TypedElems(reg, e, partial, vs, 0)
    decreases vs, 1
  {
    if Packed(e) {
      PackEncodes(reg, e, partial, vs, 0);
      assert vs[0..] == vs;
    } else {
      ElemsEncode(reg, e, partial, vs, 0);
    }
  }

  lemma {:induction false} PackEncodes(reg: Registry, e: Elem, partial: bool, vs: seq<Value>, k: nat)
    requires e.Scalar? && k <= |vs|
    ensures Pack(e.width, vs[k..]).Some? <==> TypedElems(reg, e, partial, vs, k)
    decreases |vs| - k
  {
    if k < |vs| {
      PackEncodes(reg, e, partial, vs, k + 1);
      assert vs[k..][1..] == vs[k + 1..];
    }
  }

  lemma {:induction false} ElemsEncode(reg: Registry, e: Elem, partial: bool, vs: seq<Value>, k: nat)
    requires k <= |vs|
    ensures EncElems(reg, e, partial, vs, k).Some? <==> TypedElems(reg, e, partial, vs, k)
    decreases vs, 0, |vs| - k
  {
    if k < |vs| {
      ElemEncodes(reg, e, partial, vs[k]);
      ElemsEncode(reg, e, partial, vs, k + 1);
    }
  }

  lemma {:induction false} RowsEncode(reg: Registry, e: Elem, inner: Count, vals: seq<Value>, rows: seq<Value>, k: nat)
    requires k <= |rows|
    ensures EncRows(reg, e, inner, vals, rows, k).Some? <==> TypedRows(reg, e, inner, vals, rows, k)
    decreases rows, 0, |rows| - k
  {
    if k < |rows| && rows[k].Arr? {
      ElemsEncode(reg, e, false, rows[k].elems, 0);
      RowsEncode(reg, e, inner, vals, rows, k + 1);
    }
  }

  // ---- the round trips, from the values alone ----------------------------------------------------

  /** The structure theorem with nothing left to the encoder: exactly the values of the type encode,
      and each is decoded to what `Delivery` says, with what follows unread. */
  lemma StructRoundTrip(reg: Registry, i: nat, partial: bool, d: nat, v: Value, rest: Bytes)
    requires RegistryOk(reg)
    ensures EncStruct(reg, i, partial, v).Some? <==> TypedStruct(reg, i, partial, v)
    ensures TypedStruct(reg, i, partial, v) ==>
              DecStruct(reg, i, partial, d, EncStruct(reg, i, partial, v).value + rest) ==
                Deliver(ArriveStruct(reg, i, partial, d, v), rest)
  {
    StructEncodes(reg, i, partial, v);
    if TypedStruct(reg, i, partial, v) {
      StructTrip(reg, i, partial, d, v, rest);
    }
  }

  /** Inputs of their types, and of outputs what a skeleton needs. */
  predicate TypedCommand(reg: Registry, cmd: Command, vals: seq<Value>) {
    |vals| == |cmd.params| && TypedFields(reg, Fields(cmd), CommandPlan(cmd), vals, 0)
  }

  /** A return value and outputs of their types. */
  predicate TypedReply(reg: Registry, cmd: Command, ret: Value, vals: seq<Value>) {
    && |vals| == |cmd.params| && (cmd.ret.Some? ==> TypedElem(reg, cmd.ret.value, false, ret))
    && TypedFields(reg, Fields(cmd), ReplyPlan(cmd), vals, 0)
  }

  lemma CommandEncodes(reg: Registry, cmd: Command, vals: seq<Value>)
    ensures EncCommand(reg, cmd, vals).Some? <==> TypedCommand(reg, cmd, vals)
  {
    if |vals| == |cmd.params| {
      FieldsEncode(reg, Fields(cmd), CommandPlan(cmd), vals, 0);
    }
  }

  lemma ReplyEncodes(reg: Registry, cmd: Command, ret: Value, vals: seq<Value>)
    ensures EncReply(reg, cmd, ret, vals).Some? <==> TypedReply(reg, cmd, ret, vals)
  {
    if cmd.ret.Some? {
      ElemEncodes(reg, cmd.ret.value, false, ret);
    }
    if |vals| == |cmd.params| {
      FieldsEncode(reg, Fields(cmd), ReplyPlan(cmd), vals, 0);
    }
  }

  /** A whole exchange from the values alone: a well-typed command that the host does not refuse, any
      well-typed outputs, and the guest's arguments after it. */
  lemma Exchange(reg: Registry, cmd: Command, mine: seq<Value>, ret: Value, theirs: seq<Value>, more: Bytes,
                 rest: Bytes)
    requires RegistryOk(reg) && CommandOk(reg, cmd)
    requires TypedCommand(reg, cmd, mine) && TypedReply(reg, cmd, ret, theirs)
    requires ArriveCommand(reg, cmd, mine).Some?
    requires InputsKept(reg, cmd, ArriveCommand(reg, cmd, mine).value, theirs)
    ensures EncCommand(reg, cmd, mine).Some? && EncReply(reg, cmd, ret, theirs).Some?
    ensures DecCommand(reg, cmd, EncCommand(reg, cmd, mine).value + more) ==
              Some((ArriveCommand(reg, cmd, mine).value, more))
    ensures DecReply(reg, cmd, mine, EncReply(reg, cmd, ret, theirs).value + rest)
         == Deliver(ArriveReply(reg, cmd, ret, theirs, mine), rest)
  {
    hide RegistryOk, CommandOk, TypedFields, EncCommand, EncReply, DecCommand, DecReply, ArriveCommand, ArriveReply;
    CommandEncodes(reg, cmd, mine);
    ReplyEncodes(reg, cmd, ret, theirs);
    CommandTrip(reg, cmd, mine, more);
    ReplyTrip(reg, cmd, mine, ret, theirs, rest);
  }
}
