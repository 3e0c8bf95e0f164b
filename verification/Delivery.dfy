/**
  What the receiver of a value ends up with, said on values alone: no bytes, no
  order of decoding. `None` says that a required pointer is missing, a chain
  repeats a structure or is too deep, or a structure insists on a pointer the
  wire cannot carry.
 */
module Delivery {
  import opened Options
  import opened Wire
  import opened Schema
  import opened Codec

  function ArriveElem(reg: Registry, e: Elem, partial: bool, d: nat, v: Value): Option<Value>
    decreases v, 1
  {
    match e
    case Scalar(_, _) => Some(v)
    case Handle(_) => Some(v)
    case Struct(j) => ArriveStruct(reg, j, partial, d, v)
    case Union(u) => ArriveUnion(reg, u, d, v)
  }

  function ArriveUnion(reg: Registry, u: nat, d: nat, v: Value): Option<Value>
    decreases v, 0
  {
    if u >= |reg| || !reg[u].UnionDef? || !v.Variant? || v.case_ >= |reg[u].cases| then None
    else
      var w :- ArriveField(reg, reg[u].cases[v.case_].member, Valid, false, d, [], v.member);
      Some(Variant(v.case_, w))
  }

  function ArriveStruct(reg: Registry, i: nat, partial: bool, d: nat, v: Value): Option<Value>
    decreases v, 0
  {
    if !IsStruct(reg, i) || !v.Rec? then None
    else
      var links :- ArriveLinks(reg, reg[i].chain, partial, d, v.links);
      var fields :- ArriveBody(reg, reg[i], partial, d, v.fields);
      Some(Rec(links, fields))
  }

  function ArriveBody(reg: Registry, def: TypeDef, partial: bool, d: nat, vals: seq<Value>): Option<seq<Value>>
    requires def.StructDef?
    decreases vals, |vals| + 1
  {
    if |vals| != |def.fields| then None
    else ArriveFields(reg, def.fields, BodyPlan(def, partial), false, d, vals, seq(|vals|, _ => Null), 0)
  }

  /** A chain may carry each structure once. */
  function ArriveLinks(reg: Registry, chain: seq<nat>, partial: bool, d: nat, links: seq<Link>): Option<seq<Link>>
    decreases links, |links| + 1
  {
    if chain == [] then Some([])
    else if DistinctLinks(reg, links) then ArriveChain(reg, chain, partial, d, links)
    else None
  }

  /** Link `k` of a chain begun at depth `d` is read at depth `d + k`. */
  function ArriveChain(reg: Registry, chain: seq<nat>, partial: bool, d: nat, links: seq<Link>): Option<seq<Link>>
    decreases links, |links|
  {
    if d > MAX_PNEXT_DEPTH then None
    else if links == [] then Some([])
    else
      var rest :- ArriveChain(reg, chain, partial, d + 1, links[1..]);
      var link :- ArriveLink(reg, chain, partial, d, links[0]);
      Some([link] + rest)
  }

  function ArriveLink(reg: Registry, chain: seq<nat>, partial: bool, d: nat, l: Link): Option<Link>
    decreases l
  {
    if l.ty !in chain || !IsStruct(reg, l.ty) || !l.body.Rec? then None
    else
      var fields :- ArriveBody(reg, reg[l.ty], partial, d, l.body.fields);
      Some(Link(l.ty, Rec([], fields)))
  }

  function ArriveFields(reg: Registry, fs: seq<Field>, plan: seq<Treatment>, driver: bool, d: nat,
                        vals: seq<Value>, env: seq<Value>, k: nat): (r: Option<seq<Value>>)
    requires |plan| == |fs| == |vals| == |env| && k <= |fs|
    ensures r.Some? ==> |r.value| == |fs|
    decreases vals, |vals| - k
  {
    if k == |fs| then Some(env)
    else if plan[k].Skipped? then ArriveFields(reg, fs, plan, driver, d, vals, env, k + 1)
    else
      var w :- ArriveField(reg, fs[k], plan[k], driver, d, vals, vals[k]);
      ArriveFields(reg, fs, plan, driver, d, vals, env[k := w], k + 1)
  }

  function ArriveField(reg: Registry, f: Field, t: Treatment, driver: bool, d: nat, vals: seq<Value>,
                       v: Value): Option<Value>
    decreases v, 2
  {
    match f.shape
    case NullOnly(allocator) => if f.required && !allocator then None else Some(Null)
    case Plain(e) => if t.Invalid? then Some(DefaultElem(reg, e)) else ArriveElem(reg, e, t.Partial?, d, v)
    case Stride(size) => if t.Invalid? && size != 0 then None else Some(Num(size))
    case Selected(u, _) => ArriveUnion(reg, u, d, v)
    case Static(e, n) =>
      if t.Invalid? then Some(Arr(seq(n, _ => DefaultElem(reg, e)))) else ArriveStatic(reg, e, t.Partial?, d, v)
    case Ptr(e) => ArrivePtr(reg, e, t, f.required && !driver, d, v)
    case Str => Some(if v.Text? then Cut(v) else Null)
    case Dyn(e, c) => ArriveDyn(reg, f, e, Size(c, vals, 0), t, f.required && !driver, d, vals, v)
    case Nested(e, c, _) => ArriveNested(reg, f, e, Size(c, vals, 0), f.required && !driver, d, vals, v)
    case StrArray(c) => ArriveStrArray(f, Size(c, vals, 0), f.required && !driver, vals, v)
  }

  function ArriveStrArray(f: Field, n: nat, required: bool, vals: seq<Value>, v: Value): Option<Value> {
    if n == 0 || !Sent(f, vals, v) then ArriveNull(required, n) else Some(Arr(CutAll(Elems(v))))
  }

  /** A null array is fine when the receiver does not insist, or when nothing was counted. */
  function ArriveNull(required: bool, n: nat): Option<Value> {
    if required && n != 0 then None else Some(Null)
  }

  function ArriveStatic(reg: Registry, e: Elem, partial: bool, d: nat, v: Value): Option<Value>
    decreases v, 1
  {
    if !v.Arr? then None
    else
      var vs :- ArriveElems(reg, e, partial, d, v.elems, 0);
      Some(Arr(if e.Scalar? && e.text then Terminated(vs) else vs))
  }

  function ArrivePtr(reg: Registry, e: Elem, t: Treatment, required: bool, d: nat, v: Value): Option<Value>
    decreases v, 1
  {
    if !v.Ref? then if required then None else Some(Null)
    else if t.Invalid? then Some(Ref(DefaultElem(reg, e)))
    else
      var w :- ArriveElem(reg, e, t.Partial?, d, v.target);
      Some(Ref(w))
  }

  /** An empty array arrives as a null one, and one whose elements have no bytes as an empty one. */
  function ArriveDyn(reg: Registry, f: Field, e: Elem, n: nat, t: Treatment, required: bool, d: nat, vals: seq<Value>,
                     v: Value): Option<Value>
    decreases v, 1
  {
    if n == 0 || (if t.Invalid? then v == Null else !Sent(f, vals, v)) then ArriveNull(required, n)
    else if t.Invalid? || WidthlessElem(reg, e, t) then Some(Arr([]))
    else if !v.Arr? then None
    else
      var vs :- ArriveElems(reg, e, t.Partial?, d, v.elems, 0);
      Some(Arr(vs))
  }

  function ArriveNested(reg: Registry, f: Field, e: Elem, n: nat, required: bool, d: nat, vals: seq<Value>,
                        v: Value): Option<Value>
    decreases v, 1
  {
    if n == 0 || !Sent(f, vals, v) then ArriveNull(required, n)
    else if !v.Arr? then None
    else
      var rows :- ArriveRows(reg, e, d, v.elems, 0);
      Some(Arr(rows))
  }

  /** A string as C reads it. */
  function Cut(v: Value): Value {
    if v.Text? then Text(CStr(v.bytes)) else v
  }

  function CutAll(vs: seq<Value>): seq<Value> {
    if vs == [] then [] else [Cut(vs[0])] + CutAll(vs[1..])
  }

  function ArriveElems(reg: Registry, e: Elem, partial: bool, d: nat, vs: seq<Value>, k: nat): (r: Option<seq<Value>>)
    requires k <= |vs|
    ensures r.Some? ==> |r.value| == |vs| - k
    decreases vs, 0, |vs| - k
  {
    if k == |vs| then Some([])
    else
      var w :- ArriveElem(reg, e, partial, d, vs[k]);
      var ws :- ArriveElems(reg, e, partial, d, vs, k + 1);
      Some([w] + ws)
  }

  function ArriveRows(reg: Registry, e: Elem, d: nat, rows: seq<Value>, k: nat): Option<seq<Value>>
    requires k <= |rows|
    decreases rows, 0, |rows| - k
  {
    if k == |rows| then Some([])
    else if !rows[k].Arr? then None
    else
      var row :- ArriveElems(reg, e, false, d, rows[k].elems, 0);
      var rest :- ArriveRows(reg, e, d, rows, k + 1);
      Some([Arr(row)] + rest)
  }
}
