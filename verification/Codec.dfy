/**
  What the generated encoders and decoders do, for every registry the generator
  accepts. Encoding fails (`None`) where the emitted code refuses: an array that
  disagrees with its count, a union that does not hold the selected member, a
  link with a chain of its own. Values of another type than the field's are
  refused too, standing for what the Rust types rule out.
 */
module Codec {
  import opened Options
  import opened Wire
  import opened Schema

  /** pNext links the decoder walks below one another before it gives up. */
  const MAX_PNEXT_DEPTH := 256

  predicate IsStruct(reg: Registry, i: nat) {
    i < |reg| && reg[i].StructDef?
  }

  /** A value of structure type `i`: its fields, and links its chain lists. */
  predicate Shaped(reg: Registry, i: nat, v: Value) {
    IsStruct(reg, i) && v.Rec? && |v.fields| == |reg[i].fields| && forall l | l in v.links :: l.ty in reg[i].chain
  }

  lemma LinksListed(links: seq<Link>, chain: seq<nat>)
    requires forall l | l in links :: l.ty in chain
    ensures links == [] || chain != []
  {
    if links != [] {
      assert links[0] in links;
    }
  }

  // ---- defaults ---------------------------------------------------------------

  function DefaultElem(reg: Registry, e: Elem): Value
    decreases Rank(e), 0
  {
    if e.Struct? && e.ty < |reg| && reg[e.ty].StructDef? then
      var fs := reg[e.ty].fields;
      Rec([], seq(|fs|, k requires 0 <= k < |fs| => DefaultField(reg, e.ty, fs[k].shape)))
    else if e.Union? && e.ty < |reg| && reg[e.ty].UnionDef? && reg[e.ty].fallback < |reg[e.ty].cases| then
      var c := reg[e.ty].fallback;
      Variant(c, DefaultField(reg, e.ty, reg[e.ty].cases[c].member.shape))
    else Num(0)
  }

  /** `Default::default()` of a member of type `below`. */
  function DefaultField(reg: Registry, below: nat, s: Shape): Value
    decreases below, 1
  {
    match s
    case Plain(e) => if Rank(e) <= below then DefaultElem(reg, e) else Null
    case Stride(_) => Num(0)
    case Selected(u, _) => if u < below then DefaultElem(reg, Union(u)) else Null
    case Static(e, n) => if Rank(e) <= below then Arr(seq(n, _ => DefaultElem(reg, e))) else Null
    case _ => Null
  }

  // ---- encoding ----------------------------------------------------------------

  function EncElem(reg: Registry, e: Elem, partial: bool, v: Value): Option<Bytes>
    decreases v, 1
  {
    match e
    case Scalar(w, _) => if v.Num? && v.n < Base(w) then Some(Le(Slot(w), v.n)) else None
    case Handle(_) => if v.Num? && v.n < Base(8) then Some(Le(8, v.n)) else None
    case Struct(j) => EncStruct(reg, j, partial, v)
    case Union(u) =>
      if u < |reg| && reg[u].UnionDef? && v.Variant? && v.case_ < |reg[u].cases| && reg[u].cases[v.case_].tags != []
      then EncUnion(reg, u, reg[u].cases[v.case_].tags[0], v)
      else None
  }

  /** The tag, then the member it selects. */
  function EncUnion(reg: Registry, u: nat, tag: nat, v: Value): Option<Bytes>
    decreases v, 0
  {
    if u < |reg| && reg[u].UnionDef? && v.Variant? && v.case_ < |reg[u].cases| && tag in reg[u].cases[v.case_].tags then
      var body :- EncField(reg, reg[u].cases[v.case_].member, Valid, [], v.member);
      Some(Le(reg[u].tagWidth, tag) + body)
    else None
  }

  /** `sType`, the pNext chain, the body; a structure without `sType` is its body. */
  function EncStruct(reg: Registry, i: nat, partial: bool, v: Value): Option<Bytes>
    decreases v, 0
  {
    if !IsStruct(reg, i) || !v.Rec? then None
    else
      var head :- EncHead(reg, reg[i], partial, v.links);
      var body :- EncBody(reg, reg[i], partial, v.fields);
      Some(head + body)
  }

  function EncBody(reg: Registry, def: TypeDef, partial: bool, vals: seq<Value>): Option<Bytes>
    requires def.StructDef?
    decreases vals, |vals| + 1
  {
    if |vals| == |def.fields| then EncFields(reg, def.fields, BodyPlan(def, partial), vals, 0) else None
  }

  function EncHead(reg: Registry, def: TypeDef, partial: bool, links: seq<Link>): Option<Bytes>
    requires def.StructDef?
    decreases links, |links| + 1, 1
  {
    if def.stype.None? then if links == [] then Some([]) else None
    else
      var chain :- EncChain(reg, def.chain, partial, links);
      Some(Le(4, def.stype.value) + chain)
  }

  /** Every marker and `sType` of a chain, the terminating null, every body. */
  function EncChain(reg: Registry, chain: seq<nat>, partial: bool, links: seq<Link>): Option<Bytes>
    decreases links, |links| + 1, 0
  {
    var bodies :- EncBodies(reg, chain, partial, links);
    Some(LinkHeads(reg, links) + (Le(8, 0) + bodies))
  }

  function StypeOf(reg: Registry, ty: nat): Option<nat> {
    if IsStruct(reg, ty) then reg[ty].stype else None
  }

  /** Markers and `sType`s of a chain, front to back. */
  function LinkHeads(reg: Registry, links: seq<Link>): Bytes {
    if links == [] then []
    else
      var stype := StypeOf(reg, links[0].ty);
      Le(8, 1) + Le(4, if stype.Some? then stype.value else 0) + LinkHeads(reg, links[1..])
  }

  /** The bodies of a chain, back to front. */
  function EncBodies(reg: Registry, chain: seq<nat>, partial: bool, links: seq<Link>): Option<Bytes>
    decreases links, |links|
  {
    if links == [] then Some([])
    else
      var rest :- EncBodies(reg, chain, partial, links[1..]);
      var first :- EncLink(reg, chain, partial, links[0]);
      Some(rest + first)
  }

  /** A link is its body alone; one with a chain of its own is refused. */
  function EncLink(reg: Registry, chain: seq<nat>, partial: bool, l: Link): Option<Bytes>
    decreases l
  {
    if l.ty !in chain || !IsStruct(reg, l.ty) || !l.body.Rec? || l.body.links != [] then None
    else EncBody(reg, reg[l.ty], partial, l.body.fields)
  }

  function EncFields(reg: Registry, fs: seq<Field>, plan: seq<Treatment>, vals: seq<Value>, k: nat): Option<Bytes>
    requires |plan| == |fs| == |vals| && k <= |fs|
    decreases vals, |vals| - k
  {
    if k == |fs| then Some([])
    else if plan[k].Skipped? then EncFields(reg, fs, plan, vals, k + 1)
    else
      var first :- EncField(reg, fs[k], plan[k], vals, vals[k]);
      var rest :- EncFields(reg, fs, plan, vals, k + 1);
      Some(first + rest)
  }

  /** Whether an array goes out: its condition, or else that it is not null. */
  predicate Sent(f: Field, vals: seq<Value>, v: Value) {
    if f.cond.Some? then Holds(f.cond.value, vals) else v != Null
  }

  function Elems(v: Value): seq<Value> {
    if v.Arr? then v.elems else []
  }

  function EncField(reg: Registry, f: Field, t: Treatment, vals: seq<Value>, v: Value): Option<Bytes>
    decreases v, 2
  {
    match f.shape
    case NullOnly(_) => Some(Le(8, 0))
    case Plain(e) => if t.Invalid? then Some([]) else EncElem(reg, e, t.Partial?, v)
    case Stride(size) => Some(if t.Invalid? then [] else Le(4, size))
    case Selected(u, sel) =>
      if !t.Invalid? && sel < |vals| && vals[sel].Num? then EncUnion(reg, u, vals[sel].n, v) else None
    case Static(e, n) => if t.Invalid? then Some([]) else EncStatic(reg, e, n, t.Partial?, v)
    case Ptr(e) => EncPtr(reg, e, t, v)
    case Str => EncStr(v)
    case Dyn(e, c) => EncDyn(reg, f, e, Size(c, vals, 0), t, vals, v)
    case Nested(e, c, inner) => if t.Invalid? then None else EncNested(reg, f, e, Size(c, vals, 0), inner, vals, v)
    case StrArray(c) => if t.Invalid? then None else EncStrArray(f, Size(c, vals, 0), vals, v)
  }

  function EncStatic(reg: Registry, e: Elem, n: nat, partial: bool, v: Value): Option<Bytes>
    decreases v, 1
  {
    if !v.Arr? || |v.elems| != n then None
    else
      var run :- EncRun(reg, e, partial, v.elems);
      Some(Le(8, n) + run)
  }

  function EncPtr(reg: Registry, e: Elem, t: Treatment, v: Value): Option<Bytes>
    decreases v, 1
  {
    if v == Null then Some(Le(8, 0))
    else if !v.Ref? then None
    else if t.Invalid? then Some(Le(8, 1))
    else
      var body :- EncElem(reg, e, t.Partial?, v.target);
      Some(Le(8, 1) + body)
  }

  function EncStr(v: Value): Option<Bytes> {
    if v == Null then Some(Le(8, 0))
    else if v.Text? && |v.bytes| + 1 < Base(8) then Some(PutString(v.bytes))
    else None
  }

  function Length(n: nat): Option<Bytes> {
    if n < Base(8) then Some(Le(8, n)) else None
  }

  /** A counted array: its length is its presence marker, and must be what the vector holds. */
  function EncDyn(reg: Registry, f: Field, e: Elem, n: nat, t: Treatment, vals: seq<Value>, v: Value): Option<Bytes>
    decreases v, 1
  {
    if !(v == Null || v.Arr?) then None
    else if t.Invalid? then if v == Null then Some(Le(8, 0)) else Length(n)
    else if !Sent(f, vals, v) then Some(Le(8, 0))
    else if WidthlessElem(reg, e, t) then Length(n)
    else if n != |Elems(v)| then None
    else if n == 0 then Some(Le(8, 0))
    else
      var length :- Length(n);
      var run :- EncRun(reg, e, t.Partial?, v.elems);
      Some(length + run)
  }

  function EncNested(reg: Registry, f: Field, e: Elem, n: nat, inner: Count, vals: seq<Value>, v: Value): Option<Bytes>
    decreases v, 1
  {
    if !(v == Null || v.Arr?) then None
    else if !Sent(f, vals, v) then Some(Le(8, 0))
    else if n != |Elems(v)| then None
    else if n == 0 then Some(Le(8, 0))
    else
      var length :- Length(n);
      var rows :- EncRows(reg, e, inner, vals, v.elems, 0);
      Some(length + rows)
  }

  function EncStrArray(f: Field, n: nat, vals: seq<Value>, v: Value): Option<Bytes> {
    if !(v == Null || v.Arr?) then None
    else if !Sent(f, vals, v) then Some(Le(8, 0))
    else if n != |Elems(v)| then None
    else
      var length :- Length(n);
      var strings :- EncStrings(Elems(v));
      Some(length + strings)
  }

  /** A run of elements: bytes and `uint16_t`s packed and padded, the rest one by one. */
  function EncRun(reg: Registry, e: Elem, partial: bool, vs: seq<Value>): Option<Bytes>
    decreases vs, 1
  {
    if Packed(e) then
      var packed :- Pack(e.width, vs);
      Some(Pad(packed))
    else EncElems(reg, e, partial, vs, 0)
  }

  function EncElems(reg: Registry, e: Elem, partial: bool, vs: seq<Value>, k: nat): Option<Bytes>
    requires k <= |vs|
    decreases vs, 0, |vs| - k
  {
    if k == |vs| then Some([])
    else
      var first :- EncElem(reg, e, partial, vs[k]);
      var rest :- EncElems(reg, e, partial, vs, k + 1);
      Some(first + rest)
  }

  function Pack(w: nat, vs: seq<Value>): (r: Option<Bytes>)
    ensures r.Some? ==> |r.value| == |vs| * w
  {
    if vs == [] then Some([])
    else if !vs[0].Num? || vs[0].n >= Base(w) then None
    else
      var rest :- Pack(w, vs[1..]);
      Some(Le(w, vs[0].n) + rest)
  }

  function EncRows(reg: Registry, e: Elem, inner: Count, vals: seq<Value>, rows: seq<Value>, k: nat): Option<Bytes>
    requires k <= |rows|
    decreases rows, 0, |rows| - k
  {
    if k == |rows| then Some([])
    else
      var n := Size(inner, vals, k);
      if !rows[k].Arr? || n != |rows[k].elems| || n >= Base(8) then None
      else
        var first :- EncElems(reg, e, false, rows[k].elems, 0);
        var rest :- EncRows(reg, e, inner, vals, rows, k + 1);
        Some(Le(8, n) + first + rest)
  }

  function EncStrings(vs: seq<Value>): Option<Bytes> {
    if vs == [] then Some([])
    else if !vs[0].Text? || |vs[0].bytes| + 1 >= Base(8) then None
    else
      var rest :- EncStrings(vs[1..]);
      Some(PutString(vs[0].bytes) + rest)
  }

  // ---- decoding -----------------------------------------------------------------

  function DecElem(reg: Registry, e: Elem, partial: bool, d: nat, s: Bytes): (r: Read<Value>)
    ensures r.Some? ==> |r.value.1| <= |s|
    decreases |s|, Rank(e), 2
  {
    match e
    case Scalar(w, _) => var (n, rest) :- GetScalar(w, s); Some((Num(n), rest))
    case Handle(_) => var (n, rest) :- Get(8, s); Some((Num(n), rest))
    case Struct(j) => DecStruct(reg, j, partial, d, s)
    case Union(u) => var ((_, v), rest) :- DecUnion(reg, u, d, s); Some((v, rest))
  }

  function DecUnion(reg: Registry, u: nat, d: nat, s: Bytes): (r: Read<(nat, Value)>)
    ensures r.Some? ==> |r.value.1| <= |s|
    decreases |s|, u + 1, 1
  {
    if u >= |reg| || !reg[u].UnionDef? then None
    else
      var (tag, rest) :- Get(reg[u].tagWidth, s);
      var c := CaseFor(reg[u].cases, tag);
      if c == |reg[u].cases| then None
      else
        var (v, rest') :- DecField(reg, u, reg[u].cases[c].member, Valid, false, d, [], rest);
        Some(((tag, Variant(c, v)), rest'))
  }

  function DecStruct(reg: Registry, i: nat, partial: bool, d: nat, s: Bytes): (r: Read<Value>)
    ensures r.Some? ==> |r.value.1| <= |s|
    decreases |s|, i + 1, 1
  {
    if !IsStruct(reg, i) then None
    else
      var (links, body) :- DecHead(reg, reg[i], partial, d, s);
      var (fields, rest) :- DecBody(reg, i, partial, d, body);
      Some((Rec(links, fields), rest))
  }

  function DecBody(reg: Registry, i: nat, partial: bool, d: nat, s: Bytes): (r: Read<seq<Value>>)
    requires IsStruct(reg, i)
    ensures r.Some? ==> |r.value.1| <= |s|
    decreases |s|, i + 1, 0, 3
  {
    var fs := reg[i].fields;
    DecFields(reg, i, fs, BodyPlan(reg[i], partial), false, d, seq(|fs|, _ => Null), 0, s)
  }

  function DecHead(reg: Registry, def: TypeDef, partial: bool, d: nat, s: Bytes): (r: Read<seq<Link>>)
    requires def.StructDef?
    ensures r.Some? ==> |r.value.1| <= |s|
    decreases |s|, 0, 2
  {
    if def.stype.None? then Some(([], s))
    else
      var (found, rest) :- Get(4, s);
      if found == def.stype.value then DecLinks(reg, def.chain, partial, d, rest) else None
  }

  /** A chain that may carry each structure once, or nothing where none is admitted. */
  function DecLinks(reg: Registry, chain: seq<nat>, partial: bool, d: nat, s: Bytes): (r: Read<seq<Link>>)
    ensures r.Some? ==> |r.value.1| <= |s|
    decreases |s|, 0, 1
  {
    if chain == [] then
      var (marker, rest) :- Get(8, s);
      if marker != 0 then None else Some(([], rest))
    else
      var (links, rest) :- DecChain(reg, chain, partial, d, s);
      if DistinctLinks(reg, links) then Some((links, rest)) else None
  }

  predicate DistinctLinks(reg: Registry, links: seq<Link>) {
    forall a, b | 0 <= a < b < |links| :: StypeOf(reg, links[a].ty) != StypeOf(reg, links[b].ty)
  }

  /** The structure a parent admits under an `sType`. */
  function Admitted(reg: Registry, chain: seq<nat>, stype: nat): (r: Option<nat>)
    ensures r.Some? ==> r.value in chain && IsStruct(reg, r.value)
  {
    if chain == [] then None
    else if StypeOf(reg, chain[0]) == Some(stype) then Some(chain[0])
    else Admitted(reg, chain[1..], stype)
  }

  /** A link's marker and `sType`, the whole rest of the chain, then its body. */
  function DecChain(reg: Registry, chain: seq<nat>, partial: bool, d: nat, s: Bytes): (r: Read<seq<Link>>)
    ensures r.Some? ==> |r.value.1| <= |s|
    decreases |s|, 0, 0
  {
    if d > MAX_PNEXT_DEPTH then None
    else
      var (marker, afterMarker) :- Get(8, s);
      if marker == 0 then Some(([], afterMarker))
      else
        var (stype, afterStype) :- Get(4, afterMarker);
        var (links, rest) :- DecChain(reg, chain, partial, d + 1, afterStype);
        var ty :- Admitted(reg, chain, stype);
        var (fields, rest') :- DecBody(reg, ty, partial, d, rest);
        Some(([Link(ty, Rec([], fields))] + links, rest'))
  }

  /** The fields from `k` on. `env` holds what is bound: what was decoded before, and for a
      reply the receiver's own arguments. A selected union's tag is checked after the body. */
  function DecFields(reg: Registry, below: nat, fs: seq<Field>, plan: seq<Treatment>, driver: bool,
                     d: nat, env: seq<Value>, k: nat, s: Bytes): (r: Read<seq<Value>>)
    requires |plan| == |fs| == |env| && k <= |fs|
    ensures r.Some? ==> |r.value.1| <= |s| && |r.value.0| == |fs|
    decreases |s|, below + 1, 0, 2, |fs| - k
  {
    if k == |fs| then Some((env, s))
    else if plan[k].Skipped? then DecFields(reg, below, fs, plan, driver, d, env, k + 1, s)
    else if fs[k].shape.Selected? then
      if fs[k].shape.union >= below || fs[k].shape.selector >= |fs| then None
      else
        var ((tag, v), rest) :- DecUnion(reg, fs[k].shape.union, d, s);
        var (out, rest') :- DecFields(reg, below, fs, plan, driver, d, env[k := v], k + 1, rest);
        if out[fs[k].shape.selector] == Num(tag) then Some((out, rest')) else None
    else
      var (v, rest) :- DecField(reg, below, fs[k], plan[k], driver, d, env, s);
      DecFields(reg, below, fs, plan, driver, d, env[k := v], k + 1, rest)
  }

  /** The 8-byte length that is an array's presence marker. */
  function Presence(required: bool, expected: nat, s: Bytes): (r: Read<bool>)
    ensures r.Some? ==> |r.value.1| <= |s|
  {
    var (n, rest) :- Get(8, s);
    if n == 0 then if required && expected != 0 then None else Some((false, rest))
    else if n == expected then Some((true, rest))
    else None
  }

  /** One field of type `below`; its elements are of types declared before. */
  function DecField(reg: Registry, below: nat, f: Field, t: Treatment, driver: bool, d: nat, env: seq<Value>,
                    s: Bytes): (r: Read<Value>)
    ensures r.Some? ==> |r.value.1| <= |s|
    decreases |s|, below + 1, 0, 1
  {
    var elem := ElemOf(f.shape);
    if elem.Some? && Rank(elem.value) > below then None
    else
      match f.shape
      case NullOnly(allocator) => DecNullOnly(f.required && !allocator, s)
      case Plain(e) => if t.Invalid? then Some((DefaultElem(reg, e), s)) else DecElem(reg, e, t.Partial?, d, s)
      case Stride(size) => DecStride(size, t, s)
      case Selected(_, _) => None
      case Static(e, n) =>
        if t.Invalid? then Some((Arr(seq(n, _ => DefaultElem(reg, e))), s)) else DecStatic(reg, e, n, t.Partial?, d, s)
      case Ptr(e) => DecPtr(reg, e, t, f.required && !driver, d, s)
      case Str => DecStr(s)
      case Dyn(e, c) => DecDyn(reg, e, Size(c, env, 0), t, f.required && !driver, d, s)
      case Nested(e, c, inner) => DecNested(reg, e, Size(c, env, 0), inner, f.required && !driver, d, env, s)
      case StrArray(c) => DecStrArray(Size(c, env, 0), f.required && !driver, s)
  }

  /** A pointer the wire cannot carry: set is refused, and so is null where it is required. */
  function DecNullOnly(required: bool, s: Bytes): (r: Read<Value>)
    ensures r.Some? ==> |r.value.1| <= |s|
  {
    var (marker, rest) :- Get(8, s);
    if marker != 0 || required then None else Some((Null, rest))
  }

  function DecStride(size: nat, t: Treatment, s: Bytes): (r: Read<Value>)
    ensures r.Some? ==> |r.value.1| <= |s|
  {
    var (n, rest) :- if t.Invalid? then Some((0, s)) else Get(4, s);
    if n == size then Some((Num(n), rest)) else None
  }

  function DecStatic(reg: Registry, e: Elem, n: nat, partial: bool, d: nat, s: Bytes): (r: Read<Value>)
    ensures r.Some? ==> |r.value.1| <= |s|
    decreases |s|, Rank(e), 5
  {
    var (size, rest) :- Get(8, s);
    if size != n then None
    else
      var (vs, rest') :- DecRun(reg, e, partial, d, n, rest);
      Some((Arr(if e.Scalar? && e.text then Terminated(vs) else vs), rest'))
  }

  function DecPtr(reg: Registry, e: Elem, t: Treatment, required: bool, d: nat, s: Bytes): (r: Read<Value>)
    ensures r.Some? ==> |r.value.1| <= |s|
    decreases |s|, Rank(e), 5
  {
    var (marker, rest) :- Get(8, s);
    if marker == 0 then if required then None else Some((Null, rest))
    else if t.Invalid? then Some((Ref(DefaultElem(reg, e)), rest))
    else
      var (v, rest') :- DecElem(reg, e, t.Partial?, d, rest);
      Some((Ref(v), rest'))
  }

  function DecStr(s: Bytes): (r: Read<Value>)
    ensures r.Some? ==> |r.value.1| <= |s|
  {
    var (n, rest) :- Get(8, s);
    if n == 0 then Some((Null, rest))
    else
      var (b, rest') :- GetString(n, rest);
      Some((Text(b), rest'))
  }

  function DecDyn(reg: Registry, e: Elem, n: nat, t: Treatment, required: bool, d: nat, s: Bytes): (r: Read<Value>)
    ensures r.Some? ==> |r.value.1| <= |s|
    decreases |s|, Rank(e), 5
  {
    var (present, rest) :- Presence(required, n, s);
    if !present then Some((Null, rest))
    else if t.Invalid? || WidthlessElem(reg, e, t) then Some((Arr([]), rest))
    else if !Packed(e) && |rest| < GRANULE * n then None
    else
      var (vs, rest') :- DecRun(reg, e, t.Partial?, d, n, rest);
      Some((Arr(vs), rest'))
  }

  function DecNested(reg: Registry, e: Elem, n: nat, inner: Count, required: bool, d: nat, env: seq<Value>,
                     s: Bytes): (r: Read<Value>)
    ensures r.Some? ==> |r.value.1| <= |s|
    decreases |s|, Rank(e), 5
  {
    var (present, rest) :- Presence(required, n, s);
    if !present then Some((Null, rest))
    else if |rest| < GRANULE * n then None
    else
      var (rows, rest') :- DecRows(reg, e, inner, env, d, 0, n, rest);
      Some((Arr(rows), rest'))
  }

  function DecStrArray(n: nat, required: bool, s: Bytes): (r: Read<Value>)
    ensures r.Some? ==> |r.value.1| <= |s|
  {
    var (present, rest) :- Presence(required, n, s);
    if !present then Some((Null, rest))
    else if |rest| < GRANULE * n then None
    else
      var (vs, rest') :- DecStrings(n, rest);
      Some((Arr(vs), rest'))
  }

  /** A fixed `char` array has its last byte forced to NUL. */
  function Terminated(vs: seq<Value>): seq<Value> {
    if vs == [] then [] else vs[|vs| - 1 := Num(0)]
  }

  function DecRun(reg: Registry, e: Elem, partial: bool, d: nat, n: nat, s: Bytes): (r: Read<seq<Value>>)
    ensures r.Some? ==> |r.value.1| <= |s|
    decreases |s|, Rank(e), 4
  {
    if Packed(e) then
      var (b, rest) :- GetBlob(n * e.width, s);
      Some((Unpack(e.width, n, b), rest))
    else DecElems(reg, e, partial, d, n, s)
  }

  function Unpack(w: nat, n: nat, b: Bytes): (vs: seq<Value>)
    requires |b| == n * w
    ensures |vs| == n
  {
    if n == 0 then []
    else
      assert n * w == w + (n - 1) * w;
      [Num(FromLe(b[..w]))] + Unpack(w, n - 1, b[w..])
  }

  function DecElems(reg: Registry, e: Elem, partial: bool, d: nat, n: nat, s: Bytes): (r: Read<seq<Value>>)
    ensures r.Some? ==> |r.value.1| <= |s|
    decreases |s|, Rank(e), 3, n
  {
    if n == 0 then Some(([], s))
    else
      var (v, rest) :- DecElem(reg, e, partial, d, s);
      var (vs, rest') :- DecElems(reg, e, partial, d, n - 1, rest);
      Some(([v] + vs, rest'))
  }

  function DecRows(reg: Registry, e: Elem, inner: Count, env: seq<Value>, d: nat, k: nat, n: nat,
                   s: Bytes): (r: Read<seq<Value>>)
    requires k <= n
    ensures r.Some? ==> |r.value.1| <= |s|
    decreases |s|, Rank(e), 4, n - k
  {
    if k == n then Some(([], s))
    else
      var (m, rest) :- Get(8, s);
      if m != Size(inner, env, k) || |rest| < GRANULE * m then None
      else
        var (row, rest') :- DecElems(reg, e, false, d, m, rest);
        var (rows, rest'') :- DecRows(reg, e, inner, env, d, k + 1, n, rest');
        Some(([Arr(row)] + rows, rest''))
  }

  function DecStrings(n: nat, s: Bytes): (r: Read<seq<Value>>)
    ensures r.Some? ==> |r.value.1| <= |s|
  {
    if n == 0 then Some(([], s))
    else
      var (len, rest) :- Get(8, s);
      var (b, rest') :- GetString(len, rest);
      var (vs, rest'') :- DecStrings(n - 1, rest');
      Some(([Text(b)] + vs, rest''))
  }
}
