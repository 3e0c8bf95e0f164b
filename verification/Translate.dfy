/**
  The executor's translation walk over decoded values: guest ids become host handles,
  lengths are held to their counts, scalars and links to what the device admits. The
  resolver is an oracle whose answer may depend on every call before.
 */
module Translate {
  import opened Options
  import opened Wire
  import opened Schema
  import opened Codec

  datatype Call = Call(kind: nat, id: nat, nullable: bool)

  /** The host handle for a call, given the calls already answered. */
  type Resolver = (seq<Call>, Call) -> Option<nat>

  /** Generator tables by type and field index: handles that may be null, blobs held owned because the
      host writes them, values a scalar may take, links a structure admits on this device. */
  datatype Rules = Rules(nullable: (nat, nat) -> bool, owned: (nat, nat) -> bool,
                         accepts: (nat, nat, nat) -> bool, admits: (nat, nat) -> bool)

  datatype Site = Site(owner: nat, field: nat, nullable: bool, owned: bool)

  /** A translated value and the calls so far. */
  type Done<T> = Option<(T, seq<Call>)>

  // ---- the walk -------------------------------------------------------------------------

  function TElem(reg: Registry, r: Rules, ask: Resolver, at: Site, e: Elem, v: Value, log: seq<Call>): Done<Value>
    decreases v, 1
  {
    match e
    case Scalar(_, _) => if v.Num? && r.accepts(at.owner, at.field, v.n) then Some((v, log)) else None
    case Handle(kind) =>
      if !v.Num? then None
      else
        var call := Call(kind, v.n, at.nullable);
        var id :- ask(log, call);
        Some((Num(id), log + [call]))
    case Struct(j) => TStruct(reg, r, ask, j, v, log)
    case Union(_) => Some((v, log))
  }

  /** Links first, then fields. */
  function TStruct(reg: Registry, r: Rules, ask: Resolver, i: nat, v: Value, log: seq<Call>): Done<Value>
    decreases v, 0
  {
    if !Shaped(reg, i, v) then None
    else
      var (links, log1) :- TLinks(reg, r, ask, i, v.links, log);
      var (fields, log2) :- TFields(reg, r, ask, i, {}, reg[i].fields, v.fields, [], log1);
      Some((Rec(links, fields), log2))
  }

  function TLinks(reg: Registry, r: Rules, ask: Resolver, parent: nat, links: seq<Link>,
                  log: seq<Call>): Done<seq<Link>>
    decreases links, |links|
  {
    if links == [] then Some(([], log))
    else if !r.admits(parent, links[0].ty) then None
    else
      var (link, log1) :- TLink(reg, r, ask, links[0], log);
      var (rest, log2) :- TLinks(reg, r, ask, parent, links[1..], log1);
      Some(([link] + rest, log2))
  }

  function TLink(reg: Registry, r: Rules, ask: Resolver, l: Link, log: seq<Call>): Done<Link>
    decreases l
  {
    var (body, log1) :- TStruct(reg, r, ask, l.ty, l.body, log);
    Some((Link(l.ty, body), log1))
  }

  /** The record while it is being translated in place. */
  function Mixed(done: seq<Value>, vals: seq<Value>): seq<Value>
    requires |done| <= |vals|
  {
    done + vals[|done|..]
  }

  /** What the length of an array is held to. */
  function Wanted(f: Field, vals: seq<Value>): nat {
    match f.shape
    case Dyn(_, c) => Size(c, vals, 0)
    case StrArray(c) => Size(c, vals, 0)
    case _ => 0
  }

  predicate IsBlob(s: Shape) {
    s.Dyn? && s.elem.Scalar? && s.elem.width == 1
  }

  function SiteOf(r: Rules, owner: nat, k: nat, f: Field): Site {
    Site(owner, k, !f.shape.Static? && r.nullable(owner, k), IsBlob(f.shape) && r.owned(owner, k))
  }

  /** Field by field, in place; the outputs of a command, `skip`, are left alone. */
  function TFields(reg: Registry, r: Rules, ask: Resolver, owner: nat, skip: set<nat>, fs: seq<Field>, vals: seq<Value>,
                   done: seq<Value>, log: seq<Call>): Done<seq<Value>>
    requires |done| <= |fs| == |vals|
    decreases vals, |vals| - |done|
  {
    var k := |done|;
    if k == |fs| then Some((done, log))
    else if k in skip then TFields(reg, r, ask, owner, skip, fs, vals, done + [vals[k]], log)
    else
      var (w, log1) :- TField(reg, r, ask, SiteOf(r, owner, k, fs[k]), fs[k], Wanted(fs[k], Mixed(done, vals)),
        vals[k], log);
      TFields(reg, r, ask, owner, skip, fs, vals, done + [w], log1)
  }

  /** An array is as long as its count, and absent only if it may be or the count is zero. */
  predicate Counted(f: Field, n: nat, v: Value) {
    if v == Null then f.required ==> n == 0 else v.Arr? && |v.elems| == n
  }

  /** The length of a blob the host writes is not looked at. */
  predicate LengthOk(at: Site, f: Field, n: nat, v: Value) {
    if at.owned then v == Null || v.Arr? else Counted(f, n, v)
  }

  /** Two-level arrays, strings and unions are passed over. */
  function TField(reg: Registry, r: Rules, ask: Resolver, at: Site, f: Field, n: nat, v: Value,
                  log: seq<Call>): Done<Value>
    decreases v, 2
  {
    match f.shape
    case Plain(e) => TElem(reg, r, ask, at, e, v, log)
    case Ptr(e) =>
      if v.Ref? then
        var (x, log1) :- TElem(reg, r, ask, at, e, v.target, log);
        Some((Ref(x), log1))
      else if v == Null then Some((v, log)) else None
    case Static(e, _) => if v.Arr? then TArray(reg, r, ask, at, e, v, log) else None
    case Dyn(e, _) =>
      if !LengthOk(at, f, n, v) then None
      else if v.Arr? then TArray(reg, r, ask, at, e, v, log)
      else Some((v, log))
    case StrArray(_) => if Counted(f, n, v) then Some((v, log)) else None
    case _ => Some((v, log))
  }

  function TArray(reg: Registry, r: Rules, ask: Resolver, at: Site, e: Elem, v: Value, log: seq<Call>): Done<Value>
    requires v.Arr?
    decreases v, 1
  {
    var (ws, log1) :- TElems(reg, r, ask, at, e, v.elems, log);
    Some((Arr(ws), log1))
  }

  function TElems(reg: Registry, r: Rules, ask: Resolver, at: Site, e: Elem, vs: seq<Value>,
                  log: seq<Call>): Done<seq<Value>>
    decreases vs, |vs|
  {
    if vs == [] then Some(([], log))
    else
      var (w, log1) :- TElem(reg, r, ask, at, e, vs[0], log);
      var (rest, log2) :- TElems(reg, r, ask, at, e, vs[1..], log1);
      Some(([w] + rest, log2))
  }

  // ---- the handles of a value, in order -----------------------------------------------------

  /** With `all`, those inside unions and two-level arrays too. */
  function Calls(reg: Registry, r: Rules, all: bool, at: Site, e: Elem, v: Value): seq<Call>
    decreases v, 1
  {
    match e
    case Scalar(_, _) => []
    case Handle(kind) => if v.Num? then [Call(kind, v.n, at.nullable)] else []
    case Struct(j) => CallsStruct(reg, r, all, j, v)
    case Union(u) => if all then CallsUnion(reg, r, u, v) else []
  }

  function CallsUnion(reg: Registry, r: Rules, u: nat, v: Value): seq<Call>
    decreases v, 0
  {
    if u < |reg| && reg[u].UnionDef? && v.Variant? && v.case_ < |reg[u].cases|
    then CallsField(reg, r, true, Site(u, v.case_, false, false), reg[u].cases[v.case_].member, v.member)
    else []
  }

  function CallsStruct(reg: Registry, r: Rules, all: bool, i: nat, v: Value): seq<Call>
    decreases v, 0
  {
    if Shaped(reg, i, v)
    then CallsLinks(reg, r, all, v.links) + CallsFields(reg, r, all, i, {}, reg[i].fields, v.fields, 0)
    else []
  }

  function CallsLinks(reg: Registry, r: Rules, all: bool, links: seq<Link>): seq<Call>
    decreases links, |links|
  {
    if links == [] then []
    else CallsLink(reg, r, all, links[0]) + CallsLinks(reg, r, all, links[1..])
  }

  function CallsLink(reg: Registry, r: Rules, all: bool, l: Link): seq<Call>
    decreases l
  {
    CallsStruct(reg, r, all, l.ty, l.body)
  }

  function CallsFields(reg: Registry, r: Rules, all: bool, owner: nat, skip: set<nat>, fs: seq<Field>,
                       vals: seq<Value>, k: nat): seq<Call>
    requires k <= |fs| == |vals|
    decreases vals, |vals| - k
  {
    if k == |fs| then []
    else (if k in skip then [] else CallsField(reg, r, all, SiteOf(r, owner, k, fs[k]), fs[k], vals[k]))
         + CallsFields(reg, r, all, owner, skip, fs, vals, k + 1)
  }

  function CallsField(reg: Registry, r: Rules, all: bool, at: Site, f: Field, v: Value): seq<Call>
    decreases v, 2
  {
    match f.shape
    case Plain(e) => Calls(reg, r, all, at, e, v)
    case Ptr(e) => if v.Ref? then Calls(reg, r, all, at, e, v.target) else []
    case Static(e, _) => if v.Arr? then CallsElems(reg, r, all, at, e, v.elems) else []
    case Dyn(e, _) => if v.Arr? then CallsElems(reg, r, all, at, e, v.elems) else []
    case Nested(e, _, _) => if all && v.Arr? then CallsRows(reg, r, at, e, v.elems) else []
    case Selected(u, _) => if all then CallsUnion(reg, r, u, v) else []
    case _ => []
  }

  function CallsElems(reg: Registry, r: Rules, all: bool, at: Site, e: Elem, vs: seq<Value>): seq<Call>
    decreases vs, |vs|
  {
    if vs == [] then [] else Calls(reg, r, all, at, e, vs[0]) + CallsElems(reg, r, all, at, e, vs[1..])
  }

  function CallsRows(reg: Registry, r: Rules, at: Site, e: Elem, rows: seq<Value>): seq<Call>
    decreases rows, |rows|
  {
    if rows == [] then []
    else
      (if rows[0].Arr? then CallsElems(reg, r, true, at, e, rows[0].elems) else []) +
      CallsRows(reg, r, at, e, rows[1..])
  }

  // ---- a value without its handles --------------------------------------------------------------

  function Erased(reg: Registry, e: Elem, v: Value): Value
    decreases v, 1
  {
    match e
    case Handle(_) => if v.Num? then Num(0) else v
    case Struct(j) => ErasedStruct(reg, j, v)
    case _ => v
  }

  function ErasedStruct(reg: Registry, i: nat, v: Value): Value
    decreases v, 0
  {
    if Shaped(reg, i, v)
    then Rec(ErasedLinks(reg, v.links), ErasedFields(reg, reg[i].fields, v.fields, 0))
    else v
  }

  function ErasedLinks(reg: Registry, links: seq<Link>): seq<Link>
    decreases links, |links|
  {
    if links == [] then []
    else [ErasedLink(reg, links[0])] + ErasedLinks(reg, links[1..])
  }

  function ErasedLink(reg: Registry, l: Link): Link
    decreases l
  {
    Link(l.ty, ErasedStruct(reg, l.ty, l.body))
  }

  function ErasedFields(reg: Registry, fs: seq<Field>, vals: seq<Value>, k: nat): (r: seq<Value>)
    requires k <= |fs| == |vals|
    ensures |r| == |fs| - k
    ensures forall j | 0 <= j < |r| :: r[j] == ErasedField(reg, fs[k + j], vals[k + j])
    decreases vals, |vals| - k
  {
    if k == |fs| then [] else [ErasedField(reg, fs[k], vals[k])] + ErasedFields(reg, fs, vals, k + 1)
  }

  function ErasedField(reg: Registry, f: Field, v: Value): Value
    decreases v, 2
  {
    match f.shape
    case Plain(e) => Erased(reg, e, v)
    case Ptr(e) => if v.Ref? then Ref(Erased(reg, e, v.target)) else v
    case Static(e, _) => if v.Arr? then Arr(ErasedElems(reg, e, v.elems)) else v
    case Dyn(e, _) => if v.Arr? then Arr(ErasedElems(reg, e, v.elems)) else v
    case _ => v
  }

  function ErasedElems(reg: Registry, e: Elem, vs: seq<Value>): (r: seq<Value>)
    ensures |r| == |vs| && forall j | 0 <= j < |vs| :: r[j] == Erased(reg, e, vs[j])
    decreases vs, |vs|
  {
    if vs == [] then [] else [Erased(reg, e, vs[0])] + ErasedElems(reg, e, vs[1..])
  }

  // ---- what a value must satisfy ------------------------------------------------------------------

  predicate Lawful(reg: Registry, r: Rules, at: Site, e: Elem, v: Value)
    decreases v, 1
  {
    match e
    case Scalar(_, _) => v.Num? && r.accepts(at.owner, at.field, v.n)
    case Handle(_) => v.Num?
    case Struct(j) => LawfulStruct(reg, r, j, v)
    case Union(_) => true
  }

  predicate LawfulStruct(reg: Registry, r: Rules, i: nat, v: Value)
    decreases v, 0
  {
    && Shaped(reg, i, v)
    && LawfulLinks(reg, r, i, v.links)
    && LawfulFields(reg, r, i, {}, reg[i].fields, v.fields, 0)
  }

  predicate LawfulLinks(reg: Registry, r: Rules, parent: nat, links: seq<Link>)
    decreases links, |links|
  {
    links == [] || (&& r.admits(parent, links[0].ty)
                    && LawfulLink(reg, r, links[0])
                    && LawfulLinks(reg, r, parent, links[1..]))
  }

  predicate LawfulLink(reg: Registry, r: Rules, l: Link)
    decreases l
  {
    LawfulStruct(reg, r, l.ty, l.body)
  }

  predicate LawfulFields(reg: Registry, r: Rules, owner: nat, skip: set<nat>, fs: seq<Field>, vals: seq<Value>, k: nat)
    requires k <= |fs| == |vals|
    decreases vals, |vals| - k
  {
    k == |fs| || (&& (k in skip || LawfulField(reg, r, SiteOf(r, owner, k, fs[k]), fs[k], Wanted(fs[k], vals), vals[k]))
                  && LawfulFields(reg, r, owner, skip, fs, vals, k + 1))
  }

  predicate LawfulField(reg: Registry, r: Rules, at: Site, f: Field, n: nat, v: Value)
    decreases v, 2
  {
    match f.shape
    case Plain(e) => Lawful(reg, r, at, e, v)
    case Ptr(e) => v == Null || (v.Ref? && Lawful(reg, r, at, e, v.target))
    case Static(e, _) => v.Arr? && LawfulElems(reg, r, at, e, v.elems)
    case Dyn(e, _) => LengthOk(at, f, n, v) && (v.Arr? ==> LawfulElems(reg, r, at, e, v.elems))
    case StrArray(_) => Counted(f, n, v)
    case _ => true
  }

  predicate LawfulElems(reg: Registry, r: Rules, at: Site, e: Elem, vs: seq<Value>)
    decreases vs, |vs|
  {
    vs == [] || (Lawful(reg, r, at, e, vs[0]) && LawfulElems(reg, r, at, e, vs[1..]))
  }

  // ---- calls and answers ------------------------------------------------------------------------------

  function Answers(ask: Resolver, log: seq<Call>, calls: seq<Call>): (r: Option<seq<nat>>)
    ensures r.Some? ==> |r.value| == |calls|
    decreases |calls|
  {
    if calls == [] then Some([])
    else
      var id :- ask(log, calls[0]);
      var rest :- Answers(ask, log + [calls[0]], calls[1..]);
      Some([id] + rest)
  }

  /** The same calls with the answers for ids. */
  function Refilled(calls: seq<Call>, ids: seq<nat>): seq<Call>
    requires |ids| == |calls|
  {
    seq(|calls|, k requires 0 <= k < |calls| => calls[k].(id := ids[k]))
  }

  lemma {:induction false} AnswersConcat(ask: Resolver, log: seq<Call>, a: seq<Call>, b: seq<Call>)
    ensures Answers(ask, log, a + b).Some? <==> Answers(ask, log, a).Some? && Answers(ask, log + a, b).Some?
    ensures Answers(ask, log, a + b).Some? ==>
              Answers(ask, log, a + b).value == Answers(ask, log, a).value + Answers(ask, log + a, b).value
    decreases |a|
  {
    if a == [] {
      assert a + b == b && log + a == log;
    } else {
      AnswersConcat(ask, log + [a[0]], a[1..], b);
      assert (a + b)[1..] == a[1..] + b;
      assert log + [a[0]] + a[1..] == log + a;
    }
  }

  lemma Sequence(ask: Resolver, log: seq<Call>, a: seq<Call>, b: seq<Call>)
    ensures Answers(ask, log, a + b).Some? <==> Answers(ask, log, a).Some? && Answers(ask, log + a, b).Some?
    ensures Answers(ask, log, a + b).Some? ==>
              Refilled(a + b, Answers(ask, log, a + b).value) ==
              Refilled(a, Answers(ask, log, a).value) + Refilled(b, Answers(ask, log + a, b).value)
    ensures log + a + b == log + (a + b)
  {
    AnswersConcat(ask, log, a, b);
  }

  lemma NoCalls(ask: Resolver, log: seq<Call>)
    ensures Answers(ask, log, []) == Some([]) && Refilled([], []) == [] && log + [] == log
  {
  }

  // ---- the walk is exact ------------------------------------------------------------------------------

  ghost predicate ExactElem(reg: Registry, r: Rules, ask: Resolver, at: Site, e: Elem, v: Value, log: seq<Call>) {
    var done, cs := TElem(reg, r, ask, at, e, v, log), Calls(reg, r, false, at, e, v);
    && (done.Some? <==> Lawful(reg, r, at, e, v) && Answers(ask, log, cs).Some?)
    && (done.Some? ==> && done.value.1 == log + cs
                       && Calls(reg, r, false, at, e, done.value.0) == Refilled(cs, Answers(ask, log, cs).value)
                       && Lawful(reg, r, at, e, done.value.0)
                       && Erased(reg, e, done.value.0) == Erased(reg, e, v))
  }

  ghost predicate ExactStruct(reg: Registry, r: Rules, ask: Resolver, i: nat, v: Value, log: seq<Call>) {
    var done, cs := TStruct(reg, r, ask, i, v, log), CallsStruct(reg, r, false, i, v);
    && (done.Some? <==> LawfulStruct(reg, r, i, v) && Answers(ask, log, cs).Some?)
    && (done.Some? ==> && done.value.1 == log + cs
                       && CallsStruct(reg, r, false, i, done.value.0) == Refilled(cs, Answers(ask, log, cs).value)
                       && LawfulStruct(reg, r, i, done.value.0)
                       && ErasedStruct(reg, i, done.value.0) == ErasedStruct(reg, i, v))
  }

  ghost predicate ExactLinks(reg: Registry, r: Rules, ask: Resolver, parent: nat, links: seq<Link>, log: seq<Call>) {
    var done, cs := TLinks(reg, r, ask, parent, links, log), CallsLinks(reg, r, false, links);
    && (done.Some? <==> LawfulLinks(reg, r, parent, links) && Answers(ask, log, cs).Some?)
    && (done.Some? ==> && done.value.1 == log + cs
                       && CallsLinks(reg, r, false, done.value.0) == Refilled(cs, Answers(ask, log, cs).value)
                       && LawfulLinks(reg, r, parent, done.value.0)
                       && |done.value.0| == |links|
                       && (forall j | 0 <= j < |links| :: done.value.0[j].ty == links[j].ty)
                       && ErasedLinks(reg, done.value.0) == ErasedLinks(reg, links))
  }

  ghost predicate ExactLink(reg: Registry, r: Rules, ask: Resolver, l: Link, log: seq<Call>) {
    var done, cs := TLink(reg, r, ask, l, log), CallsLink(reg, r, false, l);
    && (done.Some? <==> LawfulLink(reg, r, l) && Answers(ask, log, cs).Some?)
    && (done.Some? ==> && done.value.1 == log + cs && done.value.0.ty == l.ty
                       && CallsLink(reg, r, false, done.value.0) == Refilled(cs, Answers(ask, log, cs).value)
                       && LawfulLink(reg, r, done.value.0)
                       && ErasedLink(reg, done.value.0) == ErasedLink(reg, l))
  }

  ghost predicate ExactField(reg: Registry, r: Rules, ask: Resolver, at: Site, f: Field, n: nat, v: Value,
                             log: seq<Call>) {
    var done, cs := TField(reg, r, ask, at, f, n, v, log), CallsField(reg, r, false, at, f, v);
    && (done.Some? <==> LawfulField(reg, r, at, f, n, v) && Answers(ask, log, cs).Some?)
    && (done.Some? ==> && done.value.1 == log + cs
                       && CallsField(reg, r, false, at, f, done.value.0) == Refilled(cs, Answers(ask, log, cs).value)
                       && LawfulField(reg, r, at, f, n, done.value.0)
                       && ErasedField(reg, f, done.value.0) == ErasedField(reg, f, v))
  }

  ghost predicate ExactElems(reg: Registry, r: Rules, ask: Resolver, at: Site, e: Elem, vs: seq<Value>,
                             log: seq<Call>) {
    var done, cs := TElems(reg, r, ask, at, e, vs, log), CallsElems(reg, r, false, at, e, vs);
    && (done.Some? <==> LawfulElems(reg, r, at, e, vs) && Answers(ask, log, cs).Some?)
    && (done.Some? ==> && done.value.1 == log + cs
                       && CallsElems(reg, r, false, at, e, done.value.0) == Refilled(cs, Answers(ask, log, cs).value)
                       && LawfulElems(reg, r, at, e, done.value.0)
                       && ErasedElems(reg, e, done.value.0) == ErasedElems(reg, e, vs))
  }

  lemma {:induction false} TranslatesElems(reg: Registry, r: Rules, ask: Resolver, at: Site, e: Elem, vs: seq<Value>,
                                           log: seq<Call>)
    requires RegistryOk(reg)
    ensures ExactElems(reg, r, ask, at, e, vs, log)
    decreases vs, |vs|
  {
    if vs == [] {
      NoCalls(ask, log);
    } else {
      var first, tail := Calls(reg, r, false, at, e, vs[0]), CallsElems(reg, r, false, at, e, vs[1..]);
      Sequence(ask, log, first, tail);
      TranslatesElem(reg, r, ask, at, e, vs[0], log);
      TranslatesElems(reg, r, ask, at, e, vs[1..], log + first);
      var done := TElems(reg, r, ask, at, e, vs, log);
      if done.Some? {
        assert done.value.0[1..] == TElems(reg, r, ask, at, e, vs[1..], log + first).value.0;
      }
    }
  }

  lemma {:induction false} TranslatesLinks(reg: Registry, r: Rules, ask: Resolver, parent: nat, links: seq<Link>,
                                           log: seq<Call>)
    requires RegistryOk(reg)
    ensures ExactLinks(reg, r, ask, parent, links, log)
    decreases links, |links|
  {
    if links == [] {
      NoCalls(ask, log);
    } else {
      var first, tail := CallsLink(reg, r, false, links[0]), CallsLinks(reg, r, false, links[1..]);
      Sequence(ask, log, first, tail);
      TranslatesLink(reg, r, ask, links[0], log);
      TranslatesLinks(reg, r, ask, parent, links[1..], log + first);
      var done := TLinks(reg, r, ask, parent, links, log);
      if done.Some? {
        assert done.value.0[1..] == TLinks(reg, r, ask, parent, links[1..], log + first).value.0;
      }
    }
  }

  lemma {:induction false} TranslatesLink(reg: Registry, r: Rules, ask: Resolver, l: Link, log: seq<Call>)
    requires RegistryOk(reg)
    ensures ExactLink(reg, r, ask, l, log)
    decreases l
  {
    TranslatesStruct(reg, r, ask, l.ty, l.body, log);
  }

  lemma {:induction false} TranslatesElem(reg: Registry, r: Rules, ask: Resolver, at: Site, e: Elem, v: Value,
                                          log: seq<Call>)
    requires RegistryOk(reg)
    ensures ExactElem(reg, r, ask, at, e, v, log)
    decreases v, 1
  {
    NoCalls(ask, log);
    if e.Struct? {
      TranslatesStruct(reg, r, ask, e.ty, v, log);
    } else if e.Handle? && v.Num? {
      var call := Call(e.kind, v.n, at.nullable);
      assert [call][1..] == [];
      assert Answers(ask, log, [call]).Some? <==> ask(log, call).Some?;
    }
  }

  lemma {:induction false} TranslatesField(reg: Registry, r: Rules, ask: Resolver, at: Site, f: Field, n: nat,
                                           v: Value, log: seq<Call>)
    requires RegistryOk(reg)
    ensures ExactField(reg, r, ask, at, f, n, v, log)
    decreases v, 2
  {
    NoCalls(ask, log);
    hide TElem, TElems, Calls, CallsElems, Lawful, LawfulElems, Erased, ErasedElems, Answers, RegistryOk;
    match f.shape
    case Plain(e) => TranslatesElem(reg, r, ask, at, e, v, log);
    case Ptr(e) => if v.Ref? { TranslatesElem(reg, r, ask, at, e, v.target, log); }
    case Static(e, _) => if v.Arr? { TranslatesArray(reg, r, ask, at, e, v, log); }
    case Dyn(e, _) => if v.Arr? { TranslatesArray(reg, r, ask, at, e, v, log); }
    case _ =>
  }

  lemma {:induction false} TranslatesArray(reg: Registry, r: Rules, ask: Resolver, at: Site, e: Elem, v: Value,
                                           log: seq<Call>)
    requires RegistryOk(reg) && v.Arr?
    ensures ExactElems(reg, r, ask, at, e, v.elems, log)
    ensures var done, ws := TArray(reg, r, ask, at, e, v, log), TElems(reg, r, ask, at, e, v.elems, log);
            && done.Some? == ws.Some?
            && (done.Some? ==> done.value == (Arr(ws.value.0), ws.value.1))
    decreases v, 1
  {
    TranslatesElems(reg, r, ask, at, e, v.elems, log);
  }

  /** A count reads nothing a translation changes. */
  lemma CountErased(reg: Registry, fs: seq<Field>, c: Count, v: Value, index: nat)
    requires CountOk(reg, fs, c) && !c.Const? && c.field < |fs|
    ensures CountOf(c, ErasedField(reg, fs[c.field], v), index) == CountOf(c, v, index)
  {
    match c
    case Through(f, m) =>
      if v.Ref? { MemberErased(reg, fs[f].shape.elem, m, v.target); }
    case Indexed(f, m) =>
      if v.Arr? && index < |v.elems| { MemberErased(reg, fs[f].shape.elem, m, v.elems[index]); }
    case _ =>
  }

  lemma MemberErased(reg: Registry, e: Elem, m: nat, v: Value)
    requires StructMember(reg, e, m)
    ensures MemberNum(Erased(reg, e, v), m) == MemberNum(v, m)
  {
    if Shaped(reg, e.ty, v) {
      var fs := reg[e.ty].fields;
      assert Erased(reg, e, v) == ErasedStruct(reg, e.ty, v);
      assert ErasedStruct(reg, e.ty, v).fields == ErasedFields(reg, fs, v.fields, 0);
      assert ErasedFields(reg, fs, v.fields, 0)[m] == ErasedField(reg, fs[0 + m], v.fields[0 + m]);
      assert ErasedField(reg, fs[m], v.fields[m]) == v.fields[m];
    }
  }

  ghost predicate SameButHandles(reg: Registry, fs: seq<Field>, ws: seq<Value>, vals: seq<Value>) {
    && |ws| == |vals| == |fs|
    && forall j | 0 <= j < |fs| :: ErasedField(reg, fs[j], ws[j]) == ErasedField(reg, fs[j], vals[j])
  }

  lemma SameErased(reg: Registry, fs: seq<Field>, ws: seq<Value>, vals: seq<Value>)
    requires SameButHandles(reg, fs, ws, vals)
    ensures ErasedFields(reg, fs, ws, 0) == ErasedFields(reg, fs, vals, 0)
  {
    hide ErasedField;
    var a, b := ErasedFields(reg, fs, ws, 0), ErasedFields(reg, fs, vals, 0);
    assert forall j | 0 <= j < |fs| :: a[j] == ErasedField(reg, fs[0 + j], ws[0 + j]);
    assert forall j | 0 <= j < |fs| :: b[j] == ErasedField(reg, fs[0 + j], vals[0 + j]);
  }

  lemma WantedKept(reg: Registry, below: nat, fs: seq<Field>, ws: seq<Value>, vals: seq<Value>, k: nat)
    requires FieldsOk(reg, below, fs) && SameButHandles(reg, fs, ws, vals) && k < |fs|
    ensures Wanted(fs[k], ws) == Wanted(fs[k], vals)
  {
    assert ShapeOk(reg, below, fs, fs[k].shape);
    if fs[k].shape.Dyn? || fs[k].shape.StrArray? {
      var c := fs[k].shape.count;
      if !c.Const? && c.field < |fs| {
        CountErased(reg, fs, c, ws[c.field], 0);
        CountErased(reg, fs, c, vals[c.field], 0);
      }
    }
  }

  ghost predicate ExactFields(reg: Registry, r: Rules, ask: Resolver, owner: nat, skip: set<nat>, fs: seq<Field>,
                              vals: seq<Value>, done: seq<Value>, log: seq<Call>)
    requires |done| <= |fs| == |vals|
  {
    var k := |done|;
    var out, cs := TFields(reg, r, ask, owner, skip, fs, vals, done, log),
      CallsFields(reg, r, false, owner, skip, fs, vals, k);
    && (out.Some? <==> LawfulFields(reg, r, owner, skip, fs, vals, k) && Answers(ask, log, cs).Some?)
    && (out.Some? ==> && out.value.1 == log + cs
                      && SameButHandles(reg, fs, out.value.0, vals)
                      && out.value.0[..k] == done
                      && CallsFields(reg, r, false, owner, skip, fs, out.value.0, k) ==
                        Refilled(cs, Answers(ask, log, cs).value)
                      && LawfulFields(reg, r, owner, skip, fs, out.value.0, k))
  }

  lemma {:induction false} TranslatesFields(reg: Registry, below: nat, r: Rules, ask: Resolver, owner: nat,
                                            skip: set<nat>, fs: seq<Field>, vals: seq<Value>, done: seq<Value>,
                                            log: seq<Call>)
    requires RegistryOk(reg) && FieldsOk(reg, below, fs) && |done| <= |fs| == |vals|
    requires SameButHandles(reg, fs, Mixed(done, vals), vals)
    ensures ExactFields(reg, r, ask, owner, skip, fs, vals, done, log)
    decreases vals, |vals| - |done|
  {
    hide TField, LawfulField, CallsField, ErasedField, RegistryOk, FieldsOk, Wanted, Answers, Refilled, SiteOf;
    var k := |done|;
    if k == |fs| {
      NoCalls(ask, log);
      assert Mixed(done, vals) == done;
    } else {
      FieldStep(reg, below, r, ask, owner, skip, fs, vals, done, log);
      var first := if k in skip then [] else CallsField(reg, r, false, SiteOf(r, owner, k, fs[k]), fs[k], vals[k]);
      var tail := CallsFields(reg, r, false, owner, skip, fs, vals, k + 1);
      Sequence(ask, log, first, tail);
      var one := Step(reg, r, ask, owner, skip, fs, vals, done, log);
      if one.Some? {
        var next := done + [one.value.0];
        assert Mixed(next, vals) == Mixed(done, vals)[k := one.value.0];
        TranslatesFields(reg, below, r, ask, owner, skip, fs, vals, next, log + first);
        FieldsTail(reg, below, r, ask, owner, skip, fs, vals, next, log + first);
      }
    }
  }

  /** Field `|done|` as the walk leaves it. */
  ghost function Step(reg: Registry, r: Rules, ask: Resolver, owner: nat, skip: set<nat>, fs: seq<Field>,
                      vals: seq<Value>, done: seq<Value>, log: seq<Call>): Done<Value>
    requires |done| < |fs| == |vals|
  {
    var k := |done|;
    if k in skip then Some((vals[k], log))
    else TField(reg, r, ask, SiteOf(r, owner, k, fs[k]), fs[k], Wanted(fs[k], vals), vals[k], log)
  }

  lemma {:induction false} FieldStep(reg: Registry, below: nat, r: Rules, ask: Resolver, owner: nat, skip: set<nat>,
                                     fs: seq<Field>, vals: seq<Value>, done: seq<Value>, log: seq<Call>)
    requires RegistryOk(reg) && FieldsOk(reg, below, fs) && |done| < |fs| == |vals|
    requires SameButHandles(reg, fs, Mixed(done, vals), vals)
    ensures var k := |done|;
            var at, one := SiteOf(r, owner, k, fs[k]), Step(reg, r, ask, owner, skip, fs, vals, done, log);
            && Wanted(fs[k], Mixed(done, vals)) == Wanted(fs[k], vals)
            && (k in skip || ExactField(reg, r, ask, at, fs[k], Wanted(fs[k], vals), vals[k], log))
            && Answers(ask, log, []) == Some([]) && Refilled([], []) == [] && log + [] == log
            && (one.Some? ==> ErasedField(reg, fs[k], one.value.0) == ErasedField(reg, fs[k], vals[k]))
    decreases vals, |vals| - |done|, 0
  {
    var k := |done|;
    NoCalls(ask, log);
    WantedKept(reg, below, fs, Mixed(done, vals), vals, k);
    if k !in skip {
      TranslatesField(reg, r, ask, SiteOf(r, owner, k, fs[k]), fs[k], Wanted(fs[k], vals), vals[k], log);
    }
  }

  /** The length a field of the finished record is held to is the one it was checked against. */
  lemma FieldsTail(reg: Registry, below: nat, r: Rules, ask: Resolver, owner: nat, skip: set<nat>, fs: seq<Field>,
                   vals: seq<Value>, next: seq<Value>, log: seq<Call>)
    requires FieldsOk(reg, below, fs) && 0 < |next| <= |fs| == |vals|
    requires ExactFields(reg, r, ask, owner, skip, fs, vals, next, log)
    ensures var out := TFields(reg, r, ask, owner, skip, fs, vals, next, log);
            out.Some? ==> out.value.0[|next| - 1] == next[|next| - 1]
                          && Wanted(fs[|next| - 1], out.value.0) == Wanted(fs[|next| - 1], vals)
  {
    var out := TFields(reg, r, ask, owner, skip, fs, vals, next, log);
    if out.Some? {
      WantedKept(reg, below, fs, out.value.0, vals, |next| - 1);
      assert out.value.0[|next| - 1] == out.value.0[..|next|][|next| - 1];
    }
  }

  lemma {:induction false} TranslatesStruct(reg: Registry, r: Rules, ask: Resolver, i: nat, v: Value, log: seq<Call>)
    requires RegistryOk(reg)
    ensures ExactStruct(reg, r, ask, i, v, log)
    decreases v, 0
  {
    hide TFields, LawfulFields, CallsFields, TLinks, LawfulLinks, CallsLinks, ErasedLinks, Answers, Refilled;
    if Shaped(reg, i, v) {
      var fs := reg[i].fields;
      var links, fields := CallsLinks(reg, r, false, v.links), CallsFields(reg, r, false, i, {}, fs, v.fields, 0);
      Sequence(ask, log, links, fields);
      TranslatesLinks(reg, r, ask, i, v.links, log);
      assert FieldsOk(reg, i, fs) by { assert TypeOk(reg, i); }
      assert Mixed([], v.fields) == v.fields;
      TranslatesFields(reg, i, r, ask, i, {}, fs, v.fields, [], log + links);
      var done := TStruct(reg, r, ask, i, v, log);
      var out := TFields(reg, r, ask, i, {}, fs, v.fields, [], log + links);
      if done.Some? {
        assert Shaped(reg, i, done.value.0) by {
          forall j | 0 <= j < |v.links| ensures v.links[j] in v.links {}
        }
        assert done.value.0.fields == out.value.0;
        SameErased(reg, fs, out.value.0, v.fields);
      }
    }
  }
}
