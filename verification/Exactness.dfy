/**
  Which values survive a trip unchanged: exactly the well-typed ones in normal form.
  Arrays are null or non-empty and present only while their condition holds, strides are the
  element size, strings and character arrays end at a NUL, required pointers are there, chains
  are shallow and repeat no structure.
 */
module Exactness {
  import opened Options
  import opened Wire
  import opened Schema
  import opened Codec
  import opened Delivery
  import opened RoundTrip
  import opened Commands
  import opened Typing

  predicate NormalElem(reg: Registry, e: Elem, partial: bool, d: nat, v: Value)
    decreases v, 1
  {
    match e
    case Struct(j) => NormalStruct(reg, j, partial, d, v)
    case Union(u) => NormalUnion(reg, u, d, v)
    case _ => true
  }

  predicate NormalUnion(reg: Registry, u: nat, d: nat, v: Value)
    decreases v, 0
  {
    && u < |reg| && reg[u].UnionDef? && v.Variant? && v.case_ < |reg[u].cases|
    && NormalField(reg, reg[u].cases[v.case_].member, Valid, d, [], v.member)
  }

  predicate NormalStruct(reg: Registry, i: nat, partial: bool, d: nat, v: Value)
    decreases v, 0
  {
    && IsStruct(reg, i) && v.Rec? && |v.fields| == |reg[i].fields|
    && (if reg[i].chain == [] then v.links == []
        else DistinctLinks(reg, v.links) && NormalChain(reg, reg[i].chain, partial, d, v.links))
    && NormalFields(reg, reg[i].fields, BodyPlan(reg[i], partial), d, v.fields, 0)
  }

  predicate NormalChain(reg: Registry, chain: seq<nat>, partial: bool, d: nat, links: seq<Link>)
    decreases links, |links|
  {
    && d <= MAX_PNEXT_DEPTH
    && (links == [] || (&& NormalChain(reg, chain, partial, d + 1, links[1..])
                        && NormalLink(reg, chain, partial, d, links[0])))
  }

  predicate NormalLink(reg: Registry, chain: seq<nat>, partial: bool, d: nat, l: Link)
    decreases l
  {
    && l.ty in chain && IsStruct(reg, l.ty)
    && l.body.Rec? && l.body.links == [] && |l.body.fields| == |reg[l.ty].fields|
    && NormalFields(reg, reg[l.ty].fields, BodyPlan(reg[l.ty], partial), d, l.body.fields, 0)
  }

  predicate NormalFields(reg: Registry, fs: seq<Field>, plan: seq<Treatment>, d: nat, vals: seq<Value>, k: nat)
    requires k <= |fs| == |vals| == |plan|
    decreases vals, |vals| - k
  {
    k == |fs| || (&& NormalField(reg, fs[k], plan[k], d, vals, vals[k])
                  && NormalFields(reg, fs, plan, d, vals, k + 1))
  }

  /** Null when nothing is counted or sent, and then not insisted on; or sent and not empty. */
  predicate NormalArray(f: Field, n: nat, sent: bool, v: Value) {
    if n == 0 || !sent then v == Null && (f.required ==> n == 0) else v.Arr?
  }

  /** Whether an array goes out under a treatment; not filled in, one that is there does. */
  predicate SentAs(f: Field, t: Treatment, vals: seq<Value>, v: Value) {
    if t.Invalid? then v != Null else Sent(f, vals, v)
  }

  /** What is not filled in is the default, and an array of it empty. */
  predicate NormalField(reg: Registry, f: Field, t: Treatment, d: nat, vals: seq<Value>, v: Value)
    decreases v, 2
  {
    match f.shape
    case NullOnly(allocator) => v == Null && (f.required ==> allocator)
    case Plain(e) => if t.Invalid? then v == DefaultElem(reg, e) else NormalElem(reg, e, t.Partial?, d, v)
    case Stride(size) => v == Num(size) && (t.Invalid? ==> size == 0)
    case Selected(u, _) => NormalUnion(reg, u, d, v)
    case Static(e, n) =>
      if t.Invalid? then v == Arr(seq(n, _ => DefaultElem(reg, e)))
      else && v.Arr? && NormalElems(reg, e, t.Partial?, d, v.elems, 0)
           && (e.Scalar? && e.text ==> Terminated(v.elems) == v.elems)
    case Ptr(e) =>
      if !v.Ref? then v == Null && !f.required
      else if t.Invalid? then v.target == DefaultElem(reg, e)
      else NormalElem(reg, e, t.Partial?, d, v.target)
    case Str => if v.Text? then 0 !in v.bytes else v == Null
    case Dyn(e, c) =>
      && NormalArray(f, Size(c, vals, 0), SentAs(f, t, vals, v), v)
      && (v.Arr? ==> if t.Invalid? || WidthlessElem(reg, e, t) then v.elems == []
                     else NormalElems(reg, e, t.Partial?, d, v.elems, 0))
    case Nested(e, c, _) =>
      && NormalArray(f, Size(c, vals, 0), Sent(f, vals, v), v)
      && (v.Arr? ==> NormalRows(reg, e, d, v.elems, 0))
    case StrArray(c) =>
      NormalArray(f, Size(c, vals, 0), Sent(f, vals, v), v) && (v.Arr? ==> NormalStrings(v.elems))
  }

  predicate NormalStrings(vs: seq<Value>) {
    forall k | 0 <= k < |vs| && vs[k].Text? :: 0 !in vs[k].bytes
  }

  predicate NormalElems(reg: Registry, e: Elem, partial: bool, d: nat, vs: seq<Value>, k: nat)
    requires k <= |vs|
    decreases vs, 0, |vs| - k
  {
    k == |vs| || (NormalElem(reg, e, partial, d, vs[k]) && NormalElems(reg, e, partial, d, vs, k + 1))
  }

  predicate NormalRows(reg: Registry, e: Elem, d: nat, rows: seq<Value>, k: nat)
    requires k <= |rows|
    decreases rows, 0, |rows| - k
  {
    k == |rows| || (&& rows[k].Arr? && NormalElems(reg, e, false, d, rows[k].elems, 0)
                    && NormalRows(reg, e, d, rows, k + 1))
  }

  // ---- normal is what arrives unchanged ------------------------------------------------------

  lemma {:induction false} CutKeeps(s: Bytes)
    ensures CStr(s) == s <==> 0 !in s
  {
    if s != [] && s[0] != 0 {
      CutKeeps(s[1..]);
      assert s == [s[0]] + s[1..];
    }
  }

  lemma {:induction false} CutAllKeeps(vs: seq<Value>)
    ensures CutAll(vs) == vs <==> NormalStrings(vs)
  {
    if vs != [] {
      CutAllKeeps(vs[1..]);
      if vs[0].Text? { CutKeeps(vs[0].bytes); }
      assert vs == [vs[0]] + vs[1..];
      assert NormalStrings(vs) ==> NormalStrings(vs[1..]);
      assert NormalStrings(vs[1..]) ==> forall k | 0 < k < |vs| && vs[k].Text? ::
               vs[k] == vs[1..][k - 1] && 0 !in vs[k].bytes;
    }
  }

  lemma {:induction false} ElemKept(reg: Registry, e: Elem, partial: bool, d: nat, v: Value)
    ensures ArriveElem(reg, e, partial, d, v) == Some(v) <==> NormalElem(reg, e, partial, d, v)
    decreases v, 1
  {
    if e.Struct? {
      StructKept(reg, e.ty, partial, d, v);
    } else if e.Union? {
      UnionKept(reg, e.ty, d, v);
    }
  }

  lemma {:induction false} UnionKept(reg: Registry, u: nat, d: nat, v: Value)
    ensures ArriveUnion(reg, u, d, v) == Some(v) <==> NormalUnion(reg, u, d, v)
    decreases v, 0
  {
    if u < |reg| && reg[u].UnionDef? && v.Variant? && v.case_ < |reg[u].cases| {
      FieldKept(reg, reg[u].cases[v.case_].member, Valid, d, [], v.member);
    }
  }

  lemma {:induction false} StructKept(reg: Registry, i: nat, partial: bool, d: nat, v: Value)
    ensures ArriveStruct(reg, i, partial, d, v) == Some(v) <==> NormalStruct(reg, i, partial, d, v)
    decreases v, 0
  {
    if IsStruct(reg, i) && v.Rec? {
      LinksKept(reg, reg[i].chain, partial, d, v.links);
      BodyKept(reg, reg[i], partial, d, v.fields);
    }
  }

  lemma {:induction false} BodyKept(reg: Registry, def: TypeDef, partial: bool, d: nat, vals: seq<Value>)
    requires def.StructDef?
    ensures ArriveBody(reg, def, partial, d, vals) == Some(vals) <==>
              |vals| == |def.fields| && NormalFields(reg, def.fields, BodyPlan(def, partial), d, vals, 0)
    decreases vals, |vals| + 1
  {
    if |vals| == |def.fields| {
      FieldsKept(reg, def.fields, BodyPlan(def, partial), d, vals, seq(|vals|, _ => Null), 0);
    }
  }

  lemma {:induction false} LinksKept(reg: Registry, chain: seq<nat>, partial: bool, d: nat, links: seq<Link>)
    ensures ArriveLinks(reg, chain, partial, d, links) == Some(links) <==>
            if chain == [] then links == []
            else DistinctLinks(reg, links) && NormalChain(reg, chain, partial, d, links)
    decreases links, |links| + 1
  {
    ChainKept(reg, chain, partial, d, links);
  }

  lemma {:induction false} ChainKept(reg: Registry, chain: seq<nat>, partial: bool, d: nat, links: seq<Link>)
    ensures ArriveChain(reg, chain, partial, d, links) == Some(links) <==> NormalChain(reg, chain, partial, d, links)
    decreases links, |links|
  {
    if d <= MAX_PNEXT_DEPTH && links != [] {
      ChainKept(reg, chain, partial, d + 1, links[1..]);
      LinkKept(reg, chain, partial, d, links[0]);
      assert links == [links[0]] + links[1..];
    }
  }

  lemma {:induction false} LinkKept(reg: Registry, chain: seq<nat>, partial: bool, d: nat, l: Link)
    ensures ArriveLink(reg, chain, partial, d, l) == Some(l) <==> NormalLink(reg, chain, partial, d, l)
    decreases l
  {
    if l.ty in chain && IsStruct(reg, l.ty) && l.body.Rec? {
      BodyKept(reg, reg[l.ty], partial, d, l.body.fields);
    }
  }

  lemma {:induction false} FieldsKept(reg: Registry, fs: seq<Field>, plan: seq<Treatment>, d: nat, vals: seq<Value>,
                                      env: seq<Value>, k: nat)
    requires |fs| == |vals| == |env| == |plan| && k <= |fs| && env[..k] == vals[..k]
    requires forall j | 0 <= j < |plan| :: !plan[j].Skipped?
    ensures ArriveFields(reg, fs, plan, false, d, vals, env, k) == Some(vals) <==>
              NormalFields(reg, fs, plan, d, vals, k)
    decreases vals, |vals| - k
  {
    hide ArriveField, NormalField;
    if k == |fs| {
      assert env == env[..k] && vals == vals[..k];
    } else {
      FieldKept(reg, fs[k], plan[k], d, vals, vals[k]);
      var w := ArriveField(reg, fs[k], plan[k], false, d, vals, vals[k]);
      if w.Some? {
        var next := env[k := w.value];
        if w.value == vals[k] {
          assert next[..k + 1] == vals[..k + 1];
          FieldsKept(reg, fs, plan, d, vals, next, k + 1);
        } else {
          var out := ArriveFields(reg, fs, plan, false, d, vals, next, k + 1);
          if out.Some? {
            FieldsOut(reg, fs, plan, false, d, vals, next, k + 1, k);
          }
        }
      }
    }
  }

  lemma {:induction false} FieldKept(reg: Registry, f: Field, t: Treatment, d: nat, vals: seq<Value>, v: Value)
    ensures ArriveField(reg, f, t, false, d, vals, v) == Some(v) <==> NormalField(reg, f, t, d, vals, v)
    decreases v, 2
  {
    hide Size, Sent, Terminated, WidthlessElem, DefaultElem, NormalArray, SentAs;
    hide ArriveDyn, ArriveNested, ArriveStrArray;
    match f.shape
    case Plain(e) => ElemKept(reg, e, t.Partial?, d, v);
    case Selected(u, _) => UnionKept(reg, u, d, v);
    case Static(e, _) =>
      if v.Arr? {
        ElemsKept(reg, e, t.Partial?, d, v.elems, 0);
        TerminatedKept(reg, e, t.Partial?, d, v.elems);
      }
    case Ptr(e) => if v.Ref? { ElemKept(reg, e, t.Partial?, d, v.target); }
    case Str => if v.Text? { CutKeeps(v.bytes); }
    case Dyn(e, c) => DynKept(reg, f, e, Size(c, vals, 0), t, d, vals, v);
    case Nested(e, c, _) => NestedKept(reg, f, e, Size(c, vals, 0), d, vals, v);
    case StrArray(c) => StrArrayKept(f, Size(c, vals, 0), vals, v);
    case _ =>
  }

  lemma {:induction false} DynKept(reg: Registry, f: Field, e: Elem, n: nat, t: Treatment, d: nat, vals: seq<Value>,
                                   v: Value)
    ensures ArriveDyn(reg, f, e, n, t, f.required, d, vals, v) == Some(v) <==>
            && NormalArray(f, n, SentAs(f, t, vals, v), v)
            && (v.Arr? ==> if t.Invalid? || WidthlessElem(reg, e, t) then v.elems == []
                           else NormalElems(reg, e, t.Partial?, d, v.elems, 0))
    decreases v, 1
  {
    hide Sent, WidthlessElem;
    if v.Arr? {
      ElemsKept(reg, e, t.Partial?, d, v.elems, 0);
    }
  }

  lemma {:induction false} NestedKept(reg: Registry, f: Field, e: Elem, n: nat, d: nat, vals: seq<Value>, v: Value)
    ensures ArriveNested(reg, f, e, n, f.required, d, vals, v) == Some(v) <==>
            NormalArray(f, n, Sent(f, vals, v), v) && (v.Arr? ==> NormalRows(reg, e, d, v.elems, 0))
    decreases v, 1
  {
    hide Sent;
    if v.Arr? {
      RowsKept(reg, e, d, v.elems, 0);
    }
  }

  lemma StrArrayKept(f: Field, n: nat, vals: seq<Value>, v: Value)
    ensures ArriveStrArray(f, n, f.required, vals, v) == Some(v) <==>
            NormalArray(f, n, Sent(f, vals, v), v) && (v.Arr? ==> NormalStrings(v.elems))
  {
    hide NormalStrings;
    if v.Arr? {
      CutAllKeeps(v.elems);
    }
  }

  /** Characters are scalars: they arrive as they are before the terminator is put in. */
  lemma TerminatedKept(reg: Registry, e: Elem, partial: bool, d: nat, vs: seq<Value>)
    ensures e.Scalar? ==> ArriveElems(reg, e, partial, d, vs, 0) == Some(vs)
  {
    if e.Scalar? {
      ScalarsArrive(reg, e, partial, d, vs, 0);
      assert vs[0..] == vs;
    }
  }

  lemma {:induction false} ElemsKept(reg: Registry, e: Elem, partial: bool, d: nat, vs: seq<Value>, k: nat)
    requires k <= |vs|
    ensures ArriveElems(reg, e, partial, d, vs, k) == Some(vs[k..]) <==> NormalElems(reg, e, partial, d, vs, k)
    ensures k == 0 ==> vs[k..] == vs
    decreases vs, 0, |vs| - k
  {
    if k < |vs| {
      ElemKept(reg, e, partial, d, vs[k]);
      ElemsKept(reg, e, partial, d, vs, k + 1);
      assert vs[k..] == [vs[k]] + vs[k + 1..];
      ConsInjective(vs[k], vs[k + 1..]);
    } else {
      assert vs[k..] == [];
    }
  }

  lemma ConsInjective(v: Value, vs: seq<Value>)
    ensures forall w: Value, ws: seq<Value> :: [w] + ws == [v] + vs <==> w == v && ws == vs
  {
    forall w: Value, ws: seq<Value> | [w] + ws == [v] + vs
      ensures w == v && ws == vs
    {
      assert ([w] + ws)[0] == w && ([w] + ws)[1..] == ws;
      assert ([v] + vs)[0] == v && ([v] + vs)[1..] == vs;
    }
  }

  lemma {:induction false} RowsKept(reg: Registry, e: Elem, d: nat, rows: seq<Value>, k: nat)
    requires k <= |rows|
    ensures ArriveRows(reg, e, d, rows, k) == Some(rows[k..]) <==> NormalRows(reg, e, d, rows, k)
    ensures k == 0 ==> rows[k..] == rows
    decreases rows, 0, |rows| - k
  {
    if k < |rows| && rows[k].Arr? {
      ElemsKept(reg, e, false, d, rows[k].elems, 0);
      RowsKept(reg, e, d, rows, k + 1);
      assert rows[k..] == [rows[k]] + rows[k + 1..];
      ConsInjective(rows[k], rows[k + 1..]);
    } else if k == |rows| {
      assert rows[k..] == [];
    }
  }

  /** What survives the wire, whole or as a skeleton. */
  predicate Survives(reg: Registry, i: nat, partial: bool, d: nat, v: Value, rest: Bytes) {
    var sent := EncStruct(reg, i, partial, v);
    sent.Some? && DecStruct(reg, i, partial, d, sent.value + rest) == Some((v, rest))
  }

  /** A value is taken by the encoder and comes back exactly as it was, with what follows it unread, if
      and only if it is of the structure's type and in normal form. */
  lemma ExactTrip(reg: Registry, i: nat, partial: bool, d: nat, v: Value, rest: Bytes)
    requires RegistryOk(reg)
    ensures Survives(reg, i, partial, d, v, rest) <==>
            TypedStruct(reg, i, partial, v) && NormalStruct(reg, i, partial, d, v)
  {
    StructRoundTrip(reg, i, partial, d, v, rest);
    StructKept(reg, i, partial, d, v);
    hide RegistryOk, EncStruct, DecStruct, ArriveStruct, TypedStruct, NormalStruct;
  }

  /** So is a command: inputs whole, outputs as skeletons. */
  lemma ExactCommand(reg: Registry, cmd: Command, vals: seq<Value>, rest: Bytes)
    requires RegistryOk(reg) && CommandOk(reg, cmd) && |vals| == |cmd.params|
    ensures CommandSurvives(reg, cmd, vals, rest) <==>
            && TypedCommand(reg, cmd, vals) && NormalFields(reg, Fields(cmd), CommandPlan(cmd), 0, vals, 0)
            && !NullDispatch(cmd, vals)
  {
    CommandEncodes(reg, cmd, vals);
    FieldsKept(reg, Fields(cmd), CommandPlan(cmd), 0, vals, seq(|vals|, _ => Null), 0);
    hide RegistryOk, CommandOk, EncCommand, DecCommand, TypedCommand, NormalFields, ArriveFields, CommandPlan;
    if EncCommand(reg, cmd, vals).Some? {
      CommandTrip(reg, cmd, vals, rest);
    }
  }

  predicate CommandSurvives(reg: Registry, cmd: Command, vals: seq<Value>, rest: Bytes) {
    var sent := EncCommand(reg, cmd, vals);
    sent.Some? && DecCommand(reg, cmd, sent.value + rest) == Some((vals, rest))
  }

  // ---- whole exchanges -----------------------------------------------------------------------

  /** A reply insists on no pointer but one the wire cannot carry. */
  function Lax(f: Field): Field {
    if f.shape.NullOnly? then f else f.(required := false)
  }

  /** What a reply carries back unchanged. */
  predicate NormalOutput(reg: Registry, f: Field, vals: seq<Value>, v: Value) {
    NormalField(reg, Lax(f), Valid, 0, vals, v)
  }

  lemma DriverKept(reg: Registry, f: Field, vals: seq<Value>, v: Value)
    ensures ArriveField(reg, f, Valid, true, 0, vals, v) == Some(v) <==> NormalOutput(reg, f, vals, v)
  {
    FieldKept(reg, Lax(f), Valid, 0, vals, v);
    DriverIsLax(reg, f, vals, v);
  }

  lemma DriverIsLax(reg: Registry, f: Field, vals: seq<Value>, v: Value)
    ensures ArriveField(reg, f, Valid, true, 0, vals, v) == ArriveField(reg, Lax(f), Valid, false, 0, vals, v)
  {
    hide Size, ArriveElems, ArriveElem, ArriveRows;
    assert Sent(f, vals, v) == Sent(Lax(f), vals, v);
    match f.shape
    case Dyn(e, c) =>
      assert ArriveDyn(reg, f, e, Size(c, vals, 0), Valid, false, 0, vals, v)
          == ArriveDyn(reg, Lax(f), e, Size(c, vals, 0), Valid, false, 0, vals, v);
    case Nested(e, c, _) =>
      assert ArriveNested(reg, f, e, Size(c, vals, 0), false, 0, vals, v)
          == ArriveNested(reg, Lax(f), e, Size(c, vals, 0), false, 0, vals, v);
    case _ =>
  }

  /** The guest's arguments with the host's outputs in their places. */
  function Merged(cmd: Command, mine: seq<Value>, theirs: seq<Value>, from: nat): (r: seq<Value>)
    requires |mine| == |theirs| == |cmd.params|
    ensures |r| == |mine|
  {
    seq(|mine|, k requires 0 <= k < |mine| => if k >= from && IsOut(cmd, k) then theirs[k] else mine[k])
  }

  lemma {:induction false} OutputsArrive(reg: Registry, cmd: Command, mine: seq<Value>, theirs: seq<Value>, k: nat)
    requires |mine| == |theirs| == |cmd.params| && k <= |mine|
    requires forall j | k <= j < |theirs| && IsOut(cmd, j) :: NormalOutput(reg, Fields(cmd)[j], theirs, theirs[j])
    ensures ArriveFields(reg, Fields(cmd), ReplyPlan(cmd), true, 0, theirs, mine, k) ==
              Some(Merged(cmd, mine, theirs, k))
    decreases |mine| - k
  {
    if k == |mine| {
      assert Merged(cmd, mine, theirs, k) == mine;
    } else if IsOut(cmd, k) {
      DriverKept(reg, Fields(cmd)[k], theirs, theirs[k]);
      OutputsArrive(reg, cmd, mine[k := theirs[k]], theirs, k + 1);
      assert Merged(cmd, mine[k := theirs[k]], theirs, k + 1) == Merged(cmd, mine, theirs, k);
    } else {
      OutputsArrive(reg, cmd, mine, theirs, k + 1);
      assert Merged(cmd, mine, theirs, k + 1) == Merged(cmd, mine, theirs, k);
    }
  }

  /** The outputs arrive as they are only if each of them is in normal form. */
  lemma OutputsNormal(reg: Registry, cmd: Command, mine: seq<Value>, theirs: seq<Value>)
    requires |mine| == |theirs| == |cmd.params|
    requires ArriveFields(reg, Fields(cmd), ReplyPlan(cmd), true, 0, theirs, mine, 0) ==
               Some(Merged(cmd, mine, theirs, 0))
    ensures forall k | 0 <= k < |theirs| && IsOut(cmd, k) :: NormalOutput(reg, Fields(cmd)[k], theirs, theirs[k])
  {
    forall k | 0 <= k < |theirs| && IsOut(cmd, k)
      ensures NormalOutput(reg, Fields(cmd)[k], theirs, theirs[k])
    {
      FieldsOut(reg, Fields(cmd), ReplyPlan(cmd), true, 0, theirs, mine, 0, k);
      DriverKept(reg, Fields(cmd)[k], theirs, theirs[k]);
    }
  }

  /** A return value and outputs in normal form; an output may be null, required or not. */
  ghost predicate NormalReply(reg: Registry, cmd: Command, ret: Value, theirs: seq<Value>) {
    && |theirs| == |cmd.params|
    && (if cmd.ret.Some? then NormalElem(reg, cmd.ret.value, false, 0, ret) else ret == Null)
    && forall k | 0 <= k < |theirs| && IsOut(cmd, k) :: NormalOutput(reg, Fields(cmd)[k], theirs, theirs[k])
  }

  /** What the guest reads from a reply is exactly the host's return value and outputs beside its own
      inputs, if and only if the return value and the outputs are in normal form. */
  lemma ExactExchange(reg: Registry, cmd: Command, mine: seq<Value>, ret: Value, theirs: seq<Value>, rest: Bytes)
    requires RegistryOk(reg) && CommandOk(reg, cmd) && |mine| == |theirs| == |cmd.params|
    requires TypedCommand(reg, cmd, mine) && ArriveCommand(reg, cmd, mine).Some?
    requires InputsKept(reg, cmd, ArriveCommand(reg, cmd, mine).value, theirs)
    requires TypedReply(reg, cmd, ret, theirs)
    ensures EncCommand(reg, cmd, mine).Some? && EncReply(reg, cmd, ret, theirs).Some?
    ensures NormalReply(reg, cmd, ret, theirs) <==>
            DecReply(reg, cmd, mine, EncReply(reg, cmd, ret, theirs).value + rest) ==
              Some(((ret, Merged(cmd, mine, theirs, 0)), rest))
  {
    hide EncReply, DecReply, EncCommand, DecCommand, ArriveCommand, CommandOk, RegistryOk, TypedCommand, TypedReply;
    hide NormalOutput, Merged, ArriveFields, ArriveElem, NormalElem;
    Exchange(reg, cmd, mine, ret, theirs, [], rest);
    if cmd.ret.Some? {
      ElemKept(reg, cmd.ret.value, false, 0, ret);
    }
    if forall k | 0 <= k < |theirs| && IsOut(cmd, k) :: NormalOutput(reg, Fields(cmd)[k], theirs, theirs[k]) {
      OutputsArrive(reg, cmd, mine, theirs, 0);
    } else if ArriveFields(reg, Fields(cmd), ReplyPlan(cmd), true, 0, theirs, mine, 0) ==
                Some(Merged(cmd, mine, theirs, 0)) {
      OutputsNormal(reg, cmd, mine, theirs);
    }
  }
}
