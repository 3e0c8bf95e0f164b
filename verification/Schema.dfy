/**
  The registry as the generator sees it once every type is laid out: types in
  closure order, their fields in wire shapes, the counts of their arrays and
  the treatment each field gets.
 */
module Schema {
  import opened Options
  import opened Wire
  import LenExpr

  /** One element of a field. `Scalar` is a bit pattern of `width` bytes; `text` marks `char`. */
  datatype Elem =
    | Scalar(width: nat, text: bool)
    | Handle(kind: nat)
    | Struct(ty: nat)
    | Union(ty: nat)

  /** How many elements one level of an array has. */
  datatype Count =
    | Const(n: nat)
    | Member(field: nat)
    | Through(field: nat, member: nat)
    | Arith(field: nat, expr: LenExpr.Expr, width: nat)
    | Indexed(field: nat, member: nat)

  datatype Shape =
    | Plain(elem: Elem)
    | Stride(size: nat)
    | Selected(union: nat, selector: nat)
    | Static(elem: Elem, n: nat)
    | Ptr(elem: Elem)
    | Dyn(elem: Elem, count: Count)
    | Nested(elem: Elem, count: Count, inner: Count)
    | Str
    | StrArray(count: Count)
    | NullOnly(allocator: bool)

  /** When an ignorable array is sent: a member equals a value, or a bit of it is clear. */
  datatype Cond = Equals(field: nat, value: nat) | BitClear(field: nat, bit: nat)

  /** `required`: neither optional nor exempt from validity. */
  datatype Field = Field(shape: Shape, required: bool, cond: Option<Cond>)

  datatype Case = Case(tags: seq<nat>, member: Field)

  datatype TypeDef =
    | StructDef(stype: Option<nat>, chain: seq<nat>, fields: seq<Field>, skeleton: bool)
    | UnionDef(selected: bool, tagWidth: nat, fallback: nat, cases: seq<Case>)

  type Registry = seq<TypeDef>

  // ---- values ---------------------------------------------------------------

  /** A pNext link: its type, and the structure chained. */
  datatype Link = Link(ty: nat, body: Value)

  datatype Value =
    | Num(n: nat)
    | Text(bytes: Bytes)
    | Null
    | Ref(target: Value)
    | Arr(elems: seq<Value>)
    | Rec(links: seq<Link>, fields: seq<Value>)
    | Variant(case_: nat, member: Value)

  // ---- counts ---------------------------------------------------------------

  function NumOf(v: Value): nat {
    if v.Num? then v.n else 0
  }

  function MemberNum(v: Value, m: nat): nat {
    if v.Rec? && m < |v.fields| then NumOf(v.fields[m]) else 0
  }

  /** A count read off the value `v` of the field it names; a null pointer reads as zero. */
  function CountOf(c: Count, v: Value, index: nat): nat {
    match c
    case Const(n) => n
    case Member(_) => if v.Ref? then NumOf(v.target) else NumOf(v)
    case Through(_, m) => if v.Ref? then MemberNum(v.target, m) else 0
    case Arith(_, e, w) => LenExpr.Eval(e, NumOf(v), Base(w))
    case Indexed(_, m) => if v.Arr? && index < |v.elems| then MemberNum(v.elems[index], m) else 0
  }

  function Size(c: Count, env: seq<Value>, index: nat): nat {
    if c.Const? then c.n
    else if c.field < |env| then CountOf(c, env[c.field], index)
    else 0
  }

  function Pow2(b: nat): (p: nat)
    ensures p >= 1
  {
    if b == 0 then 1 else 2 * Pow2(b - 1)
  }

  predicate Holds(c: Cond, vals: seq<Value>) {
    && c.field < |vals|
    && match c
       case Equals(f, x) => vals[f] == Num(x)
       case BitClear(f, b) => NumOf(vals[f]) / Pow2(b) % 2 == 0
  }

  // ---- treatments -----------------------------------------------------------

  datatype Treatment = Valid | Invalid | Partial | Skipped

  function Counts(s: Shape): seq<Count> {
    match s
    case Dyn(_, c) => [c]
    case Nested(_, c, inner) => [c, inner]
    case StrArray(c) => [c]
    case _ => []
  }

  predicate Names(s: Shape, k: nat) {
    exists c | c in Counts(s) :: !c.Const? && c.field == k
  }

  function ElemOf(s: Shape): Option<Elem> {
    match s
    case Plain(e) => Some(e)
    case Static(e, _) => Some(e)
    case Ptr(e) => Some(e)
    case Dyn(e, _) => Some(e)
    case Nested(e, _, _) => Some(e)
    case Selected(u, _) => Some(Union(u))
    case _ => None
  }

  /** The type an element holds, one above its index; zero for scalars and handles. */
  function Rank(e: Elem): nat {
    if e.Struct? || e.Union? then e.ty + 1 else 0
  }

  /** What a field of an uninitialised structure carries: a length whole, a handle or
      a structure in part, anything else not at all. */
  function Uninitialised(fs: seq<Field>, k: nat): Treatment
    requires k < |fs|
  {
    if exists m | 0 <= m < |fs| && m != k :: Names(fs[m].shape, k) then Valid
    else
      var e := ElemOf(fs[k].shape);
      if e.Some? && (e.value.Handle? || e.value.Struct?) then Partial else Invalid
  }

  function FullPlan(fs: seq<Field>): seq<Treatment> {
    seq(|fs|, k => Valid)
  }

  function SkeletonPlan(fs: seq<Field>): seq<Treatment> {
    seq(|fs|, k requires 0 <= k < |fs| => Uninitialised(fs, k))
  }

  /** A structure no output reaches has no skeleton: the flag is ignored. */
  function BodyPlan(def: TypeDef, partial: bool): (p: seq<Treatment>)
    requires def.StructDef?
    ensures |p| == |def.fields|
  {
    if partial && def.skeleton then SkeletonPlan(def.fields) else FullPlan(def.fields)
  }

  // ---- what the generator accepts --------------------------------------------

  predicate PlainScalar(fs: seq<Field>, k: nat) {
    k < |fs| && fs[k].shape.Plain? && fs[k].shape.elem.Scalar?
  }

  predicate StructMember(reg: Registry, e: Elem, m: nat) {
    e.Struct? && e.ty < |reg| && reg[e.ty].StructDef? && PlainScalar(reg[e.ty].fields, m)
  }

  /** A count names a scalar, a pointer to one, or a scalar member of what a field points at. */
  predicate CountOk(reg: Registry, fs: seq<Field>, c: Count) {
    match c
    case Const(n) => n < Base(8)
    case Member(f) => PlainScalar(fs, f) || (f < |fs| && fs[f].shape.Ptr? && fs[f].shape.elem.Scalar?)
    case Through(f, m) => f < |fs| && fs[f].shape.Ptr? && StructMember(reg, fs[f].shape.elem, m)
    case Arith(f, _, w) => PlainScalar(fs, f) && w in {4, 8}
    case Indexed(f, m) => f < |fs| && fs[f].shape.Dyn? && fs[f].cond.None? && StructMember(reg, fs[f].shape.elem, m)
  }

  predicate ElemOk(reg: Registry, below: nat, e: Elem) {
    match e
    case Scalar(w, _) => w in {1, 2, 4, 8}
    case Handle(_) => true
    case Struct(j) => j < below && j < |reg| && reg[j].StructDef?
    case Union(u) => u < below && u < |reg| && reg[u].UnionDef? && !reg[u].selected
  }

  predicate Packed(e: Elem) {
    e.Scalar? && e.width <= 2
  }

  predicate ShapeOk(reg: Registry, below: nat, fs: seq<Field>, s: Shape) {
    match s
    case Plain(e) => ElemOk(reg, below, e)
    case Stride(n) => n < Base(4)
    case Selected(u, sel) =>
      && u < below && u < |reg| && reg[u].UnionDef? && reg[u].selected
      && PlainScalar(fs, sel) && fs[sel].shape.elem.width == reg[u].tagWidth
    case Static(e, n) => ElemOk(reg, below, e) && !e.Union? && n < Base(8)
    case Ptr(e) => ElemOk(reg, below, e)
    case Dyn(e, c) => ElemOk(reg, below, e) && CountOk(reg, fs, c)
    case Nested(e, c, inner) =>
      ElemOk(reg, below, e) && !e.Union? && !Packed(e) && CountOk(reg, fs, c) && CountOk(reg, fs, inner)
    case StrArray(c) => CountOk(reg, fs, c)
    case Str => true
    case NullOnly(_) => true
  }

  /** Shapes the generator refuses to emit under a treatment (`Unsupported`). */
  predicate Emits(s: Shape, t: Treatment) {
    match s
    case Str => t.Valid?
    case StrArray(_) => t.Valid?
    case Nested(_, _, _) => t.Valid?
    case Selected(_, _) => false
    case _ => true
  }

  predicate FieldsOk(reg: Registry, below: nat, fs: seq<Field>) {
    forall k | 0 <= k < |fs| :: ShapeOk(reg, below, fs, fs[k].shape)
  }

  /** Every length is declared before the arrays it sizes. */
  predicate LengthsFirst(fs: seq<Field>) {
    forall k, c | 0 <= k < |fs| && c in Counts(fs[k].shape) :: c.Const? || c.field < k
  }

  predicate MemberOk(reg: Registry, below: nat, f: Field) {
    (f.shape.Plain? || f.shape.Static? || f.shape.Ptr? || f.shape.NullOnly?) && ShapeOk(reg, below, [], f.shape)
  }

  function CaseFor(cases: seq<Case>, tag: nat): (c: nat)
    ensures c <= |cases|
    ensures c < |cases| ==> tag in cases[c].tags
  {
    if cases == [] then 0
    else if tag in cases[0].tags then 0
    else 1 + CaseFor(cases[1..], tag)
  }

  /** Each tag fits its slot and selects one member only. */
  predicate TagsOk(w: nat, cases: seq<Case>, c: nat)
    requires c < |cases|
  {
    forall t | t in cases[c].tags :: t < Base(w) && CaseFor(cases, t) == c
  }

  predicate TypeOk(reg: Registry, i: nat)
    requires i < |reg|
  {
    match reg[i]
    case StructDef(stype, chain, fields, skeleton) =>
      && FieldsOk(reg, i, fields)
      && LengthsFirst(fields)
      && (skeleton ==> forall k | 0 <= k < |fields| :: Emits(fields[k].shape, Uninitialised(fields, k)))
      && (stype.Some? || fields != [])
      && (stype.Some? ==> stype.value < Base(4))
      && (chain != [] ==> stype.Some?)
      && (forall a | 0 <= a < |chain| :: chain[a] < |reg| && reg[chain[a]].StructDef? && reg[chain[a]].stype.Some?)
      && (forall a, b | 0 <= a < b < |chain| :: reg[chain[a]].stype != reg[chain[b]].stype)
    case UnionDef(selected, w, fallback, cases) =>
      && w in {4, 8}
      && (selected ==> fallback == 0)
      && (forall c | 0 <= c < |cases| :: cases[c].tags != [] && MemberOk(reg, i, cases[c].member))
      && (forall c | 0 <= c < |cases| :: TagsOk(w, cases, c))
  }

  predicate RegistryOk(reg: Registry) {
    forall i | 0 <= i < |reg| :: TypeOk(reg, i)
  }

  // ---- zero-width skeletons ---------------------------------------------------

  /** The skeleton of structure `i` has no bytes at all. */
  predicate ZeroWidth(reg: Registry, i: nat)
    decreases i
  {
    && i < |reg|
    && reg[i].StructDef?
    && reg[i].stype.None?
    && reg[i].skeleton
    && forall k | 0 <= k < |reg[i].fields| :: WidthlessField(reg, i, reg[i].fields, k)
  }

  /** A member that is skipped, or a structure of width zero itself. */
  predicate WidthlessField(reg: Registry, i: nat, fs: seq<Field>, k: nat)
    requires k < |fs|
    decreases i, 0
  {
    var t := Uninitialised(fs, k);
    match fs[k].shape
    case Plain(e) => t.Invalid? || (t.Partial? && e.Struct? && e.ty < i && ZeroWidth(reg, e.ty))
    case Stride(_) => t.Invalid?
    case Selected(_, _) => t.Invalid?
    case Static(_, _) => t.Invalid?
    case _ => false
  }

  predicate WidthlessElem(reg: Registry, e: Elem, t: Treatment) {
    t.Partial? && e.Struct? && ZeroWidth(reg, e.ty)
  }
}
