/**
  Commands and their replies. The guest sends its inputs whole and its outputs as
  skeletons; the host answers the outputs whole; the guest reads them into the
  arguments it kept.
 */
module Commands {
  import opened Options
  import opened Wire
  import opened Schema
  import opened Codec
  import opened Delivery
  import opened RoundTrip
  import Translate

  /** `mutable`: a pointer the callee may write through. `forced`: an output the
      generator also sends, by name. */
  datatype Param = Param(field: Field, mutable: bool, forced: bool)

  datatype Command = Command(opcode: nat, params: seq<Param>, ret: Option<Elem>, dispatchable: bool)

  function Fields(cmd: Command): seq<Field> {
    seq(|cmd.params|, k requires 0 <= k < |cmd.params| => cmd.params[k].field)
  }

  predicate IsOut(cmd: Command, k: nat) {
    k < |cmd.params| && cmd.params[k].mutable
  }

  /** Whatever is not an output, and the outputs that size an array. */
  predicate IsIn(cmd: Command, k: nat) {
    k < |cmd.params| && (!cmd.params[k].mutable || cmd.params[k].forced
                         || exists m | 0 <= m < |cmd.params| :: Names(cmd.params[m].field.shape, k))
  }

  function CommandPlan(cmd: Command): seq<Treatment> {
    seq(|cmd.params|, k requires 0 <= k < |cmd.params| => if IsIn(cmd, k) then Valid else Uninitialised(Fields(cmd), k))
  }

  function ReplyPlan(cmd: Command): seq<Treatment> {
    seq(|cmd.params|, k requires 0 <= k < |cmd.params| => if IsOut(cmd, k) then Valid else Skipped)
  }

  /** What the exchange needs of what the generator accepts: lengths declared before what they size,
      and no selected union for a parameter. */
  predicate CommandOk(reg: Registry, cmd: Command) {
    var fs := Fields(cmd);
    && FieldsOk(reg, |reg|, fs)
    && LengthsFirst(fs)
    && cmd.opcode < Base(4)
    && (forall k | 0 <= k < |fs| :: !fs[k].shape.Selected?)
    && (cmd.ret.Some? ==> ElemOk(reg, |reg|, cmd.ret.value))
  }

  // ---- the four codecs -------------------------------------------------------------

  function EncCommand(reg: Registry, cmd: Command, vals: seq<Value>): Option<Bytes> {
    if |vals| == |cmd.params| then EncFields(reg, Fields(cmd), CommandPlan(cmd), vals, 0) else None
  }

  predicate NullDispatch(cmd: Command, vals: seq<Value>) {
    cmd.dispatchable && vals != [] && vals[0] == Num(0)
  }

  function DecCommand(reg: Registry, cmd: Command, s: Bytes): Read<seq<Value>> {
    var blank := seq(|cmd.params|, _ => Null);
    var (vals, rest) :- DecFields(reg, |reg|, Fields(cmd), CommandPlan(cmd), false, 0, blank, 0, s);
    if NullDispatch(cmd, vals) then None else Some((vals, rest))
  }

  function EncRet(reg: Registry, cmd: Command, ret: Value): Option<Bytes> {
    if cmd.ret.Some? then EncElem(reg, cmd.ret.value, false, ret) else Some([])
  }

  function EncReply(reg: Registry, cmd: Command, ret: Value, vals: seq<Value>): Option<Bytes> {
    if |vals| != |cmd.params| then None
    else
      var r :- EncRet(reg, cmd, ret);
      var outs :- EncFields(reg, Fields(cmd), ReplyPlan(cmd), vals, 0);
      Some(Le(4, cmd.opcode) + (r + outs))
  }

  function DecRet(reg: Registry, cmd: Command, s: Bytes): Read<Value> {
    if cmd.ret.Some? then DecElem(reg, cmd.ret.value, false, 0, s) else Some((Null, s))
  }

  /** A reply read into the arguments `mine` the guest kept. */
  function DecReply(reg: Registry, cmd: Command, mine: seq<Value>, s: Bytes): Read<(Value, seq<Value>)>
    requires |mine| == |cmd.params|
  {
    var (opcode, afterOpcode) :- Get(4, s);
    if opcode != cmd.opcode then None
    else
      var (ret, afterRet) :- DecRet(reg, cmd, afterOpcode);
      var (vals, rest) :- DecFields(reg, |reg|, Fields(cmd), ReplyPlan(cmd), true, 0, mine, 0, afterRet);
      Some(((ret, vals), rest))
  }

  // ---- what arrives -------------------------------------------------------------------

  function ArriveCommand(reg: Registry, cmd: Command, vals: seq<Value>): Option<seq<Value>>
    requires |vals| == |cmd.params|
  {
    var out :- ArriveFields(reg, Fields(cmd), CommandPlan(cmd), false, 0, vals, seq(|vals|, _ => Null), 0);
    if NullDispatch(cmd, out) then None else Some(out)
  }

  function ArriveRet(reg: Registry, cmd: Command, ret: Value): Option<Value> {
    if cmd.ret.Some? then ArriveElem(reg, cmd.ret.value, false, 0, ret) else Some(Null)
  }

  /** The guest's arguments after a reply: outputs as the host's, inputs its own. */
  function ArriveReply(reg: Registry, cmd: Command, ret: Value, theirs: seq<Value>,
                       mine: seq<Value>): Option<(Value, seq<Value>)>
    requires |mine| == |theirs| == |cmd.params|
  {
    var r :- ArriveRet(reg, cmd, ret);
    var out :- ArriveFields(reg, Fields(cmd), ReplyPlan(cmd), true, 0, theirs, mine, 0);
    Some((r, out))
  }

  // ---- proofs ---------------------------------------------------------------------------

  /** A length is sent whole, and before what it sizes. */
  lemma LengthSent(reg: Registry, cmd: Command, k: nat, c: Count)
    requires CommandOk(reg, cmd) && k < |cmd.params|
    requires c in Counts(Fields(cmd)[k].shape) && !c.Const? && c.field < |cmd.params|
    ensures CommandPlan(cmd)[c.field].Valid? && c.field < k
  {
    hide FieldsOk, Uninitialised;
    assert LengthsFirst(Fields(cmd));
    assert Names(cmd.params[k].field.shape, c.field);
    assert IsIn(cmd, c.field);
  }

  lemma PlansReadable(reg: Registry, cmd: Command)
    requires CommandOk(reg, cmd)
    ensures Readable(Fields(cmd), CommandPlan(cmd))
    ensures Readable(Fields(cmd), ReplyPlan(cmd))
  {
    var fs := Fields(cmd);
    assert forall k | 0 <= k < |fs| :: !fs[k].shape.Selected?;
    hide CommandOk, Counts, CommandPlan, ReplyPlan;
    forall k, c | 0 <= k < |fs| && c in Counts(fs[k].shape) && !c.Const? && c.field < |fs|
      ensures CommandPlan(cmd)[c.field].Valid? && c.field < k
      ensures ReplyPlan(cmd)[c.field].Valid? || ReplyPlan(cmd)[c.field].Skipped?
    {
      LengthSent(reg, cmd, k, c);
      ReplyKinds(cmd, c.field);
    }
  }

  lemma ReplyKinds(cmd: Command, k: nat)
    requires k < |cmd.params|
    ensures ReplyPlan(cmd)[k].Valid? || ReplyPlan(cmd)[k].Skipped?
  {
  }

  /** A command reads every parameter from the wire. */
  lemma NothingKept(reg: Registry, cmd: Command, vals: seq<Value>)
    requires |vals| == |cmd.params|
    ensures Bound(reg, Fields(cmd), CommandPlan(cmd), vals, seq(|vals|, _ => Null), 0)
  {
    hide CountOk, CountOf, IsIn;
  }

  /** A command is read on the host exactly as sent, or refused exactly when a required
      parameter is missing. */
  lemma CommandTrip(reg: Registry, cmd: Command, vals: seq<Value>, rest: Bytes)
    requires RegistryOk(reg) && CommandOk(reg, cmd) && |vals| == |cmd.params|
    requires EncCommand(reg, cmd, vals).Some?
    ensures DecCommand(reg, cmd, EncCommand(reg, cmd, vals).value + rest) ==
              Deliver(ArriveCommand(reg, cmd, vals), rest)
  {
    PlansReadable(reg, cmd);
    NothingKept(reg, cmd, vals);
    hide EncFields, DecFields, ArriveFields, RegistryOk, FieldsOk, LengthsFirst, CommandPlan, Readable, Bound;
    FieldsTrip(reg, |reg|, Fields(cmd), CommandPlan(cmd), false, 0, vals, seq(|vals|, _ => Null), 0, rest);
  }

  /** A parameter the guest does not write counts the same on both sides. */
  lemma InputCounts(reg: Registry, cmd: Command, mine: seq<Value>, c: Count, index: nat)
    requires RegistryOk(reg) && CommandOk(reg, cmd) && |mine| == |cmd.params|
    requires EncCommand(reg, cmd, mine).Some? && ArriveCommand(reg, cmd, mine).Some?
    requires CountOk(reg, Fields(cmd), c) && !c.Const? && c.field < |cmd.params| && !IsOut(cmd, c.field)
    ensures CountOf(c, ArriveCommand(reg, cmd, mine).value[c.field], index) == CountOf(c, mine[c.field], index)
  {
    var fs, plan, k := Fields(cmd), CommandPlan(cmd), c.field;
    FieldsInclude(reg, fs, plan, mine, 0, k);
    FieldsOut(reg, fs, plan, false, 0, mine, seq(|mine|, _ => Null), 0, k);
    CountKept(reg, fs, c, false, 0, mine, mine[k], index);
  }

  /** The host's arguments as it found them, but for its outputs and, in its inputs, for handles it
      has put its own in place of. */
  ghost predicate InputsKept(reg: Registry, cmd: Command, arrived: seq<Value>, theirs: seq<Value>) {
    && |theirs| == |arrived| == |cmd.params|
    && forall k | 0 <= k < |theirs| && !IsOut(cmd, k) ::
         Translate.ErasedField(reg, Fields(cmd)[k], theirs[k]) == Translate.ErasedField(reg, Fields(cmd)[k], arrived[k])
  }

  lemma InputsBound(reg: Registry, cmd: Command, mine: seq<Value>, theirs: seq<Value>)
    requires RegistryOk(reg) && CommandOk(reg, cmd) && |mine| == |theirs| == |cmd.params|
    requires EncCommand(reg, cmd, mine).Some? && ArriveCommand(reg, cmd, mine).Some?
    requires InputsKept(reg, cmd, ArriveCommand(reg, cmd, mine).value, theirs)
    ensures Bound(reg, Fields(cmd), ReplyPlan(cmd), theirs, mine, 0)
  {
    hide EncCommand, ArriveCommand, CountOk, CountOf, CommandOk, RegistryOk, Translate.ErasedField;
    var fs, plan, arrived := Fields(cmd), ReplyPlan(cmd), ArriveCommand(reg, cmd, mine).value;
    forall c: Count, index: nat | CountOk(reg, fs, c) && !c.Const? && c.field < |fs| && plan[c.field].Skipped?
      ensures CountOf(c, mine[c.field], index) == CountOf(c, theirs[c.field], index)
    {
      InputCounts(reg, cmd, mine, c, index);
      Translate.CountErased(reg, fs, c, arrived[c.field], index);
      Translate.CountErased(reg, fs, c, theirs[c.field], index);
    }
  }

  lemma RetTrip(reg: Registry, cmd: Command, ret: Value, rest: Bytes)
    requires RegistryOk(reg) && CommandOk(reg, cmd) && EncRet(reg, cmd, ret).Some?
    ensures DecRet(reg, cmd, EncRet(reg, cmd, ret).value + rest) == Deliver(ArriveRet(reg, cmd, ret), rest)
  {
    if cmd.ret.Some? {
      ElemTrip(reg, cmd.ret.value, false, 0, ret, rest);
    } else {
      assert [] + rest == rest;
    }
  }

  /** The whole exchange. `mine` is what the guest sent; `theirs` is the host's copy after it translated
      its input handles and filled in any outputs it liked. The guest then holds the host's outputs, in the
      form `Delivery` gives them, and its own inputs. */
  lemma ReplyTrip(reg: Registry, cmd: Command, mine: seq<Value>, ret: Value, theirs: seq<Value>, rest: Bytes)
    requires RegistryOk(reg) && CommandOk(reg, cmd) && |mine| == |theirs| == |cmd.params|
    requires EncCommand(reg, cmd, mine).Some? && ArriveCommand(reg, cmd, mine).Some?
    requires InputsKept(reg, cmd, ArriveCommand(reg, cmd, mine).value, theirs)
    requires EncReply(reg, cmd, ret, theirs).Some?
    ensures DecReply(reg, cmd, mine, EncReply(reg, cmd, ret, theirs).value + rest)
         == Deliver(ArriveReply(reg, cmd, ret, theirs, mine), rest)
  {
    var fs, plan := Fields(cmd), ReplyPlan(cmd);
    PlansReadable(reg, cmd);
    InputsBound(reg, cmd, mine, theirs);
    hide EncElem, DecElem, ArriveElem, EncFields, DecFields, ArriveFields;
    hide RegistryOk, FieldsOk, LengthsFirst, CommandPlan, Readable, Bound, Get, Le, EncRet, DecRet, ArriveRet;
    hide EncCommand, ArriveCommand, InputsKept, ReplyPlan, Fields;
    var r, outs := EncRet(reg, cmd, ret).value, EncFields(reg, fs, plan, theirs, 0).value;
    assert EncReply(reg, cmd, ret, theirs).value + rest == Le(4, cmd.opcode) + (r + (outs + rest));
    GetPut(4, cmd.opcode, r + (outs + rest));
    RetTrip(reg, cmd, ret, outs + rest);
    FieldsTrip(reg, |reg|, fs, plan, true, 0, theirs, mine, 0, rest);
  }

  /** Parameter by parameter: an input is the guest's own, an output the host's. */
  lemma ReplyContents(reg: Registry, cmd: Command, ret: Value, theirs: seq<Value>, mine: seq<Value>, k: nat)
    requires |mine| == |theirs| == |cmd.params| && k < |cmd.params|
    requires ArriveReply(reg, cmd, ret, theirs, mine).Some?
    ensures var out := ArriveReply(reg, cmd, ret, theirs, mine).value.1;
            if IsOut(cmd, k)
            then ArriveField(reg, cmd.params[k].field, Valid, true, 0, theirs, theirs[k]) == Some(out[k])
            else out[k] == mine[k]
  {
    FieldsOut(reg, Fields(cmd), ReplyPlan(cmd), true, 0, theirs, mine, 0, k);
  }
}
