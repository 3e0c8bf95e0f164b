/**
  Where decoding stops. What is left of any accepted bytes is their end, and bytes that come later change
  nothing: the decoders take the same and leave the longer rest.
 */
module Framing {
  import opened Options
  import opened Wire
  import opened Schema
  import opened Codec
  import opened Commands

  /** `rest` ends `s`. */
  predicate Ends(rest: Bytes, s: Bytes) {
    |rest| <= |s| && s[|s| - |rest|..] == rest
  }

  /** Read from `s` and again from `s` and more: the same, with the end of `s`, and more, left. */
  predicate Framed<T(==)>(short: Read<T>, long: Read<T>, s: Bytes, t: Bytes) {
    short.Some? ==> Ends(short.value.1, s) && long == Some((short.value.0, short.value.1 + t))
  }

  lemma EndsTwice(a: Bytes, b: Bytes, c: Bytes)
    requires Ends(a, b) && Ends(b, c)
    ensures Ends(a, c)
  {
    assert c[|c| - |a|..] == c[|c| - |b|..][|b| - |a|..];
  }

  lemma EndsAll(s: Bytes)
    ensures Ends(s, s)
  {
  }

  // ---- the primitives ------------------------------------------------------------------------------

  lemma GetFramed(w: nat, s: Bytes, t: Bytes)
    ensures Framed(Get(w, s), Get(w, s + t), s, t)
  {
    if w <= |s| {
      assert (s + t)[..w] == s[..w] && (s + t)[w..] == s[w..] + t;
    }
  }

  lemma ScalarFramed(w: nat, s: Bytes, t: Bytes)
    ensures Framed(GetScalar(w, s), GetScalar(w, s + t), s, t)
  {
    GetFramed(Slot(w), s, t);
  }

  lemma BlobFramed(n: nat, s: Bytes, t: Bytes)
    ensures Framed(GetBlob(n, s), GetBlob(n, s + t), s, t)
  {
    var w := n + Padding(n);
    if w <= |s| {
      assert (s + t)[..n] == s[..n] && (s + t)[w..] == s[w..] + t;
    }
  }

  lemma StringFramed(len: nat, s: Bytes, t: Bytes)
    ensures Framed(GetString(len, s), GetString(len, s + t), s, t)
  {
    BlobFramed(len, s, t);
  }

  lemma PresenceFramed(required: bool, n: nat, s: Bytes, t: Bytes)
    ensures Framed(Presence(required, n, s), Presence(required, n, s + t), s, t)
  {
    GetFramed(8, s, t);
  }

  lemma {:induction false} StringsFramed(n: nat, s: Bytes, t: Bytes)
    ensures Framed(DecStrings(n, s), DecStrings(n, s + t), s, t)
  {
    hide Get, GetString, Ends;
    if n == 0 {
      EndsAll(s);
    } else if DecStrings(n, s).Some? {
      GetFramed(8, s, t);
      var (len, rest) := Get(8, s).value;
      StringFramed(len, rest, t);
      var rest' := GetString(len, rest).value.1;
      StringsFramed(n - 1, rest', t);
      EndsTwice(rest', rest, s);
      EndsTwice(DecStrings(n - 1, rest').value.1, rest', s);
    }
  }

  // ---- everything else ---------------------------------------------------------------------------------

  lemma {:induction false} ElemFramed(reg: Registry, e: Elem, partial: bool, d: nat, s: Bytes, t: Bytes)
    ensures Framed(DecElem(reg, e, partial, d, s), DecElem(reg, e, partial, d, s + t), s, t)
    decreases |s|, Rank(e), 2
  {
    match e
    case Scalar(w, _) => ScalarFramed(w, s, t);
    case Handle(_) => GetFramed(8, s, t);
    case Struct(j) => StructFramed(reg, j, partial, d, s, t);
    case Union(u) => UnionFramed(reg, u, d, s, t);
  }

  lemma {:induction false} UnionFramed(reg: Registry, u: nat, d: nat, s: Bytes, t: Bytes)
    ensures Framed(DecUnion(reg, u, d, s), DecUnion(reg, u, d, s + t), s, t)
    decreases |s|, u + 1, 1
  {
    hide Get, Ends, DecField;
    if DecUnion(reg, u, d, s).Some? {
      GetFramed(reg[u].tagWidth, s, t);
      var (tag, rest) := Get(reg[u].tagWidth, s).value;
      var f := reg[u].cases[CaseFor(reg[u].cases, tag)].member;
      FieldFramed(reg, u, f, Valid, false, d, [], rest, t);
      EndsTwice(DecField(reg, u, f, Valid, false, d, [], rest).value.1, rest, s);
    }
  }

  lemma {:induction false} StructFramed(reg: Registry, i: nat, partial: bool, d: nat, s: Bytes, t: Bytes)
    ensures Framed(DecStruct(reg, i, partial, d, s), DecStruct(reg, i, partial, d, s + t), s, t)
    decreases |s|, i + 1, 1
  {
    hide Ends, DecHead, DecBody;
    if DecStruct(reg, i, partial, d, s).Some? {
      HeadFramed(reg, reg[i], partial, d, s, t);
      var body := DecHead(reg, reg[i], partial, d, s).value.1;
      BodyFramed(reg, i, partial, d, body, t);
      EndsTwice(DecBody(reg, i, partial, d, body).value.1, body, s);
    }
  }

  lemma {:induction false} BodyFramed(reg: Registry, i: nat, partial: bool, d: nat, s: Bytes, t: Bytes)
    requires IsStruct(reg, i)
    ensures Framed(DecBody(reg, i, partial, d, s), DecBody(reg, i, partial, d, s + t), s, t)
    decreases |s|, i + 1, 0, 3
  {
    var fs := reg[i].fields;
    FieldsFramed(reg, i, fs, BodyPlan(reg[i], partial), false, d, seq(|fs|, _ => Null), 0, s, t);
  }

  lemma {:induction false} HeadFramed(reg: Registry, def: TypeDef, partial: bool, d: nat, s: Bytes, t: Bytes)
    requires def.StructDef?
    ensures Framed(DecHead(reg, def, partial, d, s), DecHead(reg, def, partial, d, s + t), s, t)
    decreases |s|, 0, 2
  {
    hide Get, Ends, DecLinks;
    EndsAll(s);
    if def.stype.Some? && DecHead(reg, def, partial, d, s).Some? {
      GetFramed(4, s, t);
      var rest := Get(4, s).value.1;
      LinksFramed(reg, def.chain, partial, d, rest, t);
      EndsTwice(DecLinks(reg, def.chain, partial, d, rest).value.1, rest, s);
    }
  }

  lemma {:induction false} LinksFramed(reg: Registry, chain: seq<nat>, partial: bool, d: nat, s: Bytes, t: Bytes)
    ensures Framed(DecLinks(reg, chain, partial, d, s), DecLinks(reg, chain, partial, d, s + t), s, t)
    decreases |s|, 0, 1
  {
    hide Get, Ends, DecChain, DistinctLinks;
    if chain == [] {
      GetFramed(8, s, t);
    } else {
      ChainFramed(reg, chain, partial, d, s, t);
    }
  }

  lemma {:induction false} ChainFramed(reg: Registry, chain: seq<nat>, partial: bool, d: nat, s: Bytes, t: Bytes)
    ensures Framed(DecChain(reg, chain, partial, d, s), DecChain(reg, chain, partial, d, s + t), s, t)
    decreases |s|, 0, 0
  {
    hide Get, Ends, DecBody, Admitted;
    if DecChain(reg, chain, partial, d, s).Some? {
      GetFramed(8, s, t);
      var (marker, afterMarker) := Get(8, s).value;
      if marker != 0 {
        LinkFramed(reg, chain, partial, d, s, afterMarker, t);
      }
    }
  }

  lemma {:induction false} LinkFramed(reg: Registry, chain: seq<nat>, partial: bool, d: nat, s: Bytes, after: Bytes,
                                      t: Bytes)
    requires DecChain(reg, chain, partial, d, s).Some? && Get(8, s).Some? && Get(8, s).value.0 != 0
    requires Get(8, s).value.1 == after && Ends(after, s) && |after| < |s|
    requires Get(8, s + t) == Some((Get(8, s).value.0, after + t))
    ensures Framed(DecChain(reg, chain, partial, d, s), DecChain(reg, chain, partial, d, s + t), s, t)
    decreases |after|, 0, 2
  {
    hide Get, Ends, DecBody, Admitted;
    GetFramed(4, after, t);
    var (stype, afterStype) := Get(4, after).value;
    ChainFramed(reg, chain, partial, d + 1, afterStype, t);
    var rest := DecChain(reg, chain, partial, d + 1, afterStype).value.1;
    var ty := Admitted(reg, chain, stype).value;
    BodyFramed(reg, ty, partial, d, rest, t);
    var rest' := DecBody(reg, ty, partial, d, rest).value.1;
    EndsTwice(afterStype, after, s);
    EndsTwice(rest, afterStype, s);
    EndsTwice(rest', rest, s);
  }

  lemma {:induction false} FieldsFramed(reg: Registry, below: nat, fs: seq<Field>, plan: seq<Treatment>, driver: bool,
                                        d: nat, env: seq<Value>, k: nat, s: Bytes, t: Bytes)
    requires |plan| == |fs| == |env| && k <= |fs|
    ensures Framed(DecFields(reg, below, fs, plan, driver, d, env, k, s),
                   DecFields(reg, below, fs, plan, driver, d, env, k, s + t), s, t)
    decreases |s|, below + 1, 0, 2, |fs| - k
  {
    hide Ends, DecField, DecUnion;
    EndsAll(s);
    if k < |fs| && DecFields(reg, below, fs, plan, driver, d, env, k, s).Some? {
      if plan[k].Skipped? {
        FieldsFramed(reg, below, fs, plan, driver, d, env, k + 1, s, t);
      } else if fs[k].shape.Selected? {
        var u := fs[k].shape.union;
        UnionFramed(reg, u, d, s, t);
        var ((_, v), rest) := DecUnion(reg, u, d, s).value;
        FieldsFramed(reg, below, fs, plan, driver, d, env[k := v], k + 1, rest, t);
        EndsTwice(DecFields(reg, below, fs, plan, driver, d, env[k := v], k + 1, rest).value.1, rest, s);
      } else {
        FieldFramed(reg, below, fs[k], plan[k], driver, d, env, s, t);
        var (v, rest) := DecField(reg, below, fs[k], plan[k], driver, d, env, s).value;
        FieldsFramed(reg, below, fs, plan, driver, d, env[k := v], k + 1, rest, t);
        EndsTwice(DecFields(reg, below, fs, plan, driver, d, env[k := v], k + 1, rest).value.1, rest, s);
      }
    }
  }

  lemma {:induction false} FieldFramed(reg: Registry, below: nat, f: Field, how: Treatment, driver: bool, d: nat,
                                       env: seq<Value>, s: Bytes, t: Bytes)
    ensures Framed(DecField(reg, below, f, how, driver, d, env, s),
                   DecField(reg, below, f, how, driver, d, env, s + t), s, t)
    decreases |s|, below + 1, 0, 1
  {
    hide Get, Ends, Size, DecElem, DecStatic, DecPtr, DecStr, DecDyn, DecNested, DecStrArray, DefaultElem;
    EndsAll(s);
    if DecField(reg, below, f, how, driver, d, env, s).Some? {
      match f.shape
      case NullOnly(_) => GetFramed(8, s, t);
      case Plain(e) => if !how.Invalid? { ElemFramed(reg, e, how.Partial?, d, s, t); }
      case Stride(_) => GetFramed(4, s, t);
      case Static(e, n) => if !how.Invalid? { StaticFramed(reg, e, n, how.Partial?, d, s, t); }
      case Ptr(e) => PtrFramed(reg, e, how, f.required && !driver, d, s, t);
      case Str => StrFramed(s, t);
      case Dyn(e, c) => DynFramed(reg, e, Size(c, env, 0), how, f.required && !driver, d, s, t);
      case Nested(e, c, inner) => NestedFramed(reg, e, Size(c, env, 0), inner, f.required && !driver, d, env, s, t);
      case StrArray(c) => StrArrayFramed(Size(c, env, 0), f.required && !driver, s, t);
      case _ =>
    }
  }

  lemma StrFramed(s: Bytes, t: Bytes)
    ensures Framed(DecStr(s), DecStr(s + t), s, t)
  {
    hide Get, GetString, Ends;
    if DecStr(s).Some? {
      GetFramed(8, s, t);
      var (n, rest) := Get(8, s).value;
      if n != 0 {
        StringFramed(n, rest, t);
        EndsTwice(GetString(n, rest).value.1, rest, s);
      }
    }
  }

  lemma {:induction false} StaticFramed(reg: Registry, e: Elem, n: nat, partial: bool, d: nat, s: Bytes, t: Bytes)
    ensures Framed(DecStatic(reg, e, n, partial, d, s), DecStatic(reg, e, n, partial, d, s + t), s, t)
    decreases |s|, Rank(e), 5
  {
    hide Get, Ends, DecRun, Terminated;
    if DecStatic(reg, e, n, partial, d, s).Some? {
      GetFramed(8, s, t);
      var rest := Get(8, s).value.1;
      RunFramed(reg, e, partial, d, n, rest, t);
      EndsTwice(DecRun(reg, e, partial, d, n, rest).value.1, rest, s);
    }
  }

  lemma {:induction false} PtrFramed(reg: Registry, e: Elem, how: Treatment, required: bool, d: nat, s: Bytes, t: Bytes)
    ensures Framed(DecPtr(reg, e, how, required, d, s), DecPtr(reg, e, how, required, d, s + t), s, t)
    decreases |s|, Rank(e), 5
  {
    hide Get, Ends, DecElem, DefaultElem;
    if DecPtr(reg, e, how, required, d, s).Some? {
      GetFramed(8, s, t);
      var (marker, rest) := Get(8, s).value;
      if marker != 0 && !how.Invalid? {
        ElemFramed(reg, e, how.Partial?, d, rest, t);
        EndsTwice(DecElem(reg, e, how.Partial?, d, rest).value.1, rest, s);
      }
    }
  }

  lemma {:induction false} DynFramed(reg: Registry, e: Elem, n: nat, how: Treatment, required: bool, d: nat, s: Bytes,
                                     t: Bytes)
    ensures Framed(DecDyn(reg, e, n, how, required, d, s), DecDyn(reg, e, n, how, required, d, s + t), s, t)
    decreases |s|, Rank(e), 5
  {
    hide Presence, Ends, DecRun, WidthlessElem;
    if DecDyn(reg, e, n, how, required, d, s).Some? {
      PresenceFramed(required, n, s, t);
      var (present, rest) := Presence(required, n, s).value;
      if present && !how.Invalid? && !WidthlessElem(reg, e, how) {
        RunFramed(reg, e, how.Partial?, d, n, rest, t);
        EndsTwice(DecRun(reg, e, how.Partial?, d, n, rest).value.1, rest, s);
      }
    }
  }

  lemma {:induction false} NestedFramed(reg: Registry, e: Elem, n: nat, inner: Count, required: bool, d: nat,
                                        env: seq<Value>, s: Bytes, t: Bytes)
    ensures Framed(DecNested(reg, e, n, inner, required, d, env, s),
                   DecNested(reg, e, n, inner, required, d, env, s + t), s, t)
    decreases |s|, Rank(e), 5
  {
    hide Presence, Ends, DecRows;
    if DecNested(reg, e, n, inner, required, d, env, s).Some? {
      PresenceFramed(required, n, s, t);
      var (present, rest) := Presence(required, n, s).value;
      if present {
        RowsFramed(reg, e, inner, env, d, 0, n, rest, t);
        EndsTwice(DecRows(reg, e, inner, env, d, 0, n, rest).value.1, rest, s);
      }
    }
  }

  lemma StrArrayFramed(n: nat, required: bool, s: Bytes, t: Bytes)
    ensures Framed(DecStrArray(n, required, s), DecStrArray(n, required, s + t), s, t)
  {
    hide Presence, Ends, DecStrings;
    if DecStrArray(n, required, s).Some? {
      PresenceFramed(required, n, s, t);
      var (present, rest) := Presence(required, n, s).value;
      if present {
        StringsFramed(n, rest, t);
        EndsTwice(DecStrings(n, rest).value.1, rest, s);
      }
    }
  }

  lemma {:induction false} RunFramed(reg: Registry, e: Elem, partial: bool, d: nat, n: nat, s: Bytes, t: Bytes)
    ensures Framed(DecRun(reg, e, partial, d, n, s), DecRun(reg, e, partial, d, n, s + t), s, t)
    decreases |s|, Rank(e), 4
  {
    hide GetBlob, Ends, DecElems, Unpack;
    if Packed(e) {
      BlobFramed(n * e.width, s, t);
    } else {
      ElemsFramed(reg, e, partial, d, n, s, t);
    }
  }

  lemma {:induction false} ElemsFramed(reg: Registry, e: Elem, partial: bool, d: nat, n: nat, s: Bytes, t: Bytes)
    ensures Framed(DecElems(reg, e, partial, d, n, s), DecElems(reg, e, partial, d, n, s + t), s, t)
    decreases |s|, Rank(e), 3, n
  {
    hide Ends, DecElem;
    EndsAll(s);
    if n > 0 && DecElems(reg, e, partial, d, n, s).Some? {
      ElemFramed(reg, e, partial, d, s, t);
      var rest := DecElem(reg, e, partial, d, s).value.1;
      ElemsFramed(reg, e, partial, d, n - 1, rest, t);
      EndsTwice(DecElems(reg, e, partial, d, n - 1, rest).value.1, rest, s);
    }
  }

  lemma {:induction false} RowsFramed(reg: Registry, e: Elem, inner: Count, env: seq<Value>, d: nat, k: nat, n: nat,
                                      s: Bytes, t: Bytes)
    requires k <= n
    ensures Framed(DecRows(reg, e, inner, env, d, k, n, s), DecRows(reg, e, inner, env, d, k, n, s + t), s, t)
    decreases |s|, Rank(e), 4, n - k
  {
    hide Get, Ends, DecElems, Size;
    EndsAll(s);
    if k < n && DecRows(reg, e, inner, env, d, k, n, s).Some? {
      GetFramed(8, s, t);
      var (m, rest) := Get(8, s).value;
      ElemsFramed(reg, e, false, d, m, rest, t);
      var rest' := DecElems(reg, e, false, d, m, rest).value.1;
      RowsFramed(reg, e, inner, env, d, k + 1, n, rest', t);
      EndsTwice(rest', rest, s);
      EndsTwice(DecRows(reg, e, inner, env, d, k + 1, n, rest').value.1, rest', s);
    }
  }

  // ---- commands and replies ---------------------------------------------------------------------------

  /** A command is taken from the front of a stream: what is left is the stream's end, and the same command is
      taken, and the rest left, however much more has arrived. */
  lemma CommandFramed(reg: Registry, cmd: Command, s: Bytes, t: Bytes)
    ensures Framed(DecCommand(reg, cmd, s), DecCommand(reg, cmd, s + t), s, t)
  {
    hide DecFields, NullDispatch, Ends;
    FieldsFramed(reg, |reg|, Fields(cmd), CommandPlan(cmd), false, 0, seq(|cmd.params|, _ => Null), 0, s, t);
  }

  /** So is a reply. */
  lemma ReplyFramed(reg: Registry, cmd: Command, mine: seq<Value>, s: Bytes, t: Bytes)
    requires |mine| == |cmd.params|
    ensures Framed(DecReply(reg, cmd, mine, s), DecReply(reg, cmd, mine, s + t), s, t)
  {
    hide Get, DecFields, DecElem, Ends;
    if DecReply(reg, cmd, mine, s).Some? {
      GetFramed(4, s, t);
      var afterOpcode := Get(4, s).value.1;
      EndsAll(afterOpcode);
      if cmd.ret.Some? {
        ElemFramed(reg, cmd.ret.value, false, 0, afterOpcode, t);
      }
      var afterRet := DecRet(reg, cmd, afterOpcode).value.1;
      FieldsFramed(reg, |reg|, Fields(cmd), ReplyPlan(cmd), true, 0, mine, 0, afterRet, t);
      EndsTwice(afterRet, afterOpcode, s);
      EndsTwice(DecFields(reg, |reg|, Fields(cmd), ReplyPlan(cmd), true, 0, mine, 0, afterRet).value.1, afterRet, s);
    }
  }
}
