/**
  One command on the host, from the guest's bytes to the reply the guest reads: decode, screen every link,
  translate for the device, let the host call fill in the outputs, answer.
 */
module Executor {
  import opened Options
  import opened Wire
  import opened Schema
  import opened Codec
  import opened Graphs
  import opened Passes
  import opened Delivery
  import opened RoundTrip
  import opened Commands
  import opened Translate
  import opened Typing
  import opened Exactness
  import opened Views
  import opened Visibility
  import opened LinkView
  import opened Device

  function Outputs(cmd: Command): set<nat> {
    set k: nat | k < |cmd.params| && IsOut(cmd, k)
  }

  /** The marks of the chain pass: the types a link can be below. */
  ghost predicate ChainMarks(reg: Registry, marks: nat -> bool) {
    && (forall i: nat | i < |reg| :: marks(i) <==> ReachesAny(TypeGraph(reg), i, Chained(reg)))
    && forall i: nat | marks(i) :: i < |reg|
  }

  /** A decoded command: refused for a link the policy does not admit, wherever it is, and then translated
      in place. */
  function Admit(reg: Registry, d: Device, marks: nat -> bool, ask: Resolver, owner: nat, cmd: Command,
                 vals: seq<Value>): Done<seq<Value>>
    requires |vals| == |cmd.params|
  {
    if AllOf(ScreenedOn(d), WalkFields(reg, marks, true, Fields(cmd), vals, 0))
    then TFields(reg, RulesOf(reg, d), ask, owner, Outputs(cmd), Fields(cmd), vals, [], [])
    else None
  }

  /** From the guest's bytes to the host's arguments. */
  function Serve(reg: Registry, d: Device, marks: nat -> bool, ask: Resolver, owner: nat, cmd: Command,
                 s: Bytes): Read<(seq<Value>, seq<Call>)>
  {
    var (vals, rest) :- DecCommand(reg, cmd, s);
    var args :- Admit(reg, d, marks, ask, owner, cmd, vals);
    Some((args, rest))
  }

  /** The screen looks only into marked types, and still at every link of every parameter. */
  lemma ScreenedAll(reg: Registry, d: Device, marks: nat -> bool, fs: seq<Field>, vals: seq<Value>)
    requires ChainMarks(reg, marks) && |vals| == |fs|
    requires AllOf(ScreenedOn(d), WalkFields(reg, marks, true, fs, vals, 0))
    ensures forall k | 0 <= k < |fs| :: AllOf(ScreenedOn(d), WalkField(reg, All, true, fs[k], vals[k]))
  {
    hide WalkField, WalkFields, ScreenedOn;
    PrunedWalk(reg, marks, true, fs, vals);
    forall k | 0 <= k < |fs| ensures AllOf(ScreenedOn(d), WalkField(reg, All, true, fs[k], vals[k])) {
      FieldOfWalk(reg, ScreenedOn(d), true, fs, vals, 0, k);
    }
  }

  /** What the host goes on with: every link in its inputs is one the policy admits, those in view are
      served on the device, and in a tight input all are; handles aside it is what arrived. */
  lemma Admitted(reg: Registry, d: Device, marks: nat -> bool, ask: Resolver, owner: nat, cmd: Command,
                 vals: seq<Value>)
    requires RegistryOk(reg) && CommandOk(reg, cmd) && |vals| == |cmd.params| && ChainMarks(reg, marks)
    requires Admit(reg, d, marks, ask, owner, cmd, vals).Some?
    ensures var args := Admit(reg, d, marks, ask, owner, cmd, vals).value.0;
            && SameButHandles(reg, Fields(cmd), args, vals)
            && LinksServed(reg, d, Outputs(cmd), Fields(cmd), args)
  {
    ScreenedAll(reg, d, marks, Fields(cmd), vals);
    hide RegistryOk, FieldsOk, RulesOf, TFields, LinksServed, AllOf, SameButHandles, WalkField;
    AfterTranslation(reg, d, ask, owner, Outputs(cmd), Fields(cmd), vals);
  }

  /** With clear inputs: a command is taken exactly when each of its links is one the policy admits, its
      inputs are lawful on the device and every handle of theirs is answered. Each was then asked for
      once, in order and with its kind, and its answer is in its place. */
  lemma AdmitsExactly(reg: Registry, d: Device, marks: nat -> bool, ask: Resolver, owner: nat, cmd: Command,
                      vals: seq<Value>)
    requires RegistryOk(reg) && CommandOk(reg, cmd) && |vals| == |cmd.params| && ChainMarks(reg, marks)
    requires forall k | 0 <= k < |vals| && !IsOut(cmd, k) :: ClearField(reg, GuardOf(d), Fields(cmd)[k])
    ensures var r, outs, fs := RulesOf(reg, d), Outputs(cmd), Fields(cmd);
            var host := Admit(reg, d, marks, ask, owner, cmd, vals);
            var handles := CallsFields(reg, r, true, owner, outs, fs, vals, 0);
            && (host.Some? <==> && AllOf(ScreenedOn(d), WalkFields(reg, All, true, fs, vals, 0))
                                && LawfulFields(reg, r, owner, outs, fs, vals, 0)
                                && Answers(ask, [], handles).Some?)
            && (host.Some? ==>
                  && host.value.1 == handles
                  && SameButHandles(reg, fs, host.value.0, vals)
                  && CallsFields(reg, r, true, owner, outs, fs, host.value.0, 0) ==
                    Refilled(handles, Answers(ask, [], handles).value))
  {
    hide RegistryOk, FieldsOk, RulesOf, TFields, LinksServed, AllOf, SameButHandles, WalkField, ClearField;
    hide WalkFields, CallsFields, LawfulFields;
    PrunedWalk(reg, marks, true, Fields(cmd), vals);
    if AllOf(ScreenedOn(d), WalkFields(reg, All, true, Fields(cmd), vals, 0)) {
      ScreenedAll(reg, d, marks, Fields(cmd), vals);
      TranslatesOnDevice(reg, d, ask, owner, Outputs(cmd), Fields(cmd), vals);
    }
  }

  /** The host's arguments after its call: the inputs as translated, any outputs of their types. */
  predicate Answered(reg: Registry, cmd: Command, args: seq<Value>, ret: Value, theirs: seq<Value>) {
    && |theirs| == |args| == |cmd.params| && TypedReply(reg, cmd, ret, theirs)
    && forall k | 0 <= k < |theirs| && !IsOut(cmd, k) :: theirs[k] == args[k]
  }

  /** The guest reads the reply: it holds the host's return value and outputs, in the form they arrive in,
      beside its own inputs; and holds them exactly if and only if they are in normal form. */
  ghost predicate ReplyRead(reg: Registry, cmd: Command, mine: seq<Value>, ret: Value, theirs: seq<Value>, rest: Bytes)
    requires |mine| == |theirs| == |cmd.params|
  {
    && EncReply(reg, cmd, ret, theirs).Some?
    && var read := DecReply(reg, cmd, mine, EncReply(reg, cmd, ret, theirs).value + rest);
       && read == Deliver(ArriveReply(reg, cmd, ret, theirs, mine), rest)
       && (read == Some(((ret, Merged(cmd, mine, theirs, 0)), rest)) <==> NormalReply(reg, cmd, ret, theirs))
  }

  /** The host takes the bytes of a well-typed command, or not, as it does what the arguments arrive as. */
  lemma ServesArrived(reg: Registry, d: Device, marks: nat -> bool, ask: Resolver, owner: nat, cmd: Command,
                      mine: seq<Value>, more: Bytes)
    requires RegistryOk(reg) && CommandOk(reg, cmd) && |mine| == |cmd.params| && TypedCommand(reg, cmd, mine)
    ensures EncCommand(reg, cmd, mine).Some?
    ensures var arrived := ArriveCommand(reg, cmd, mine);
            Serve(reg, d, marks, ask, owner, cmd, EncCommand(reg, cmd, mine).value + more) ==
            if arrived.None? then None else Deliver(Admit(reg, d, marks, ask, owner, cmd, arrived.value), more)
  {
    hide RegistryOk, CommandOk, TypedCommand, EncCommand, DecCommand, Admit;
    CommandEncodes(reg, cmd, mine);
    CommandTrip(reg, cmd, mine, more);
  }

  /** A whole command the host takes: from the guest's arguments `mine` to the host's, with the links in them
      admitted and served, and whatever the host call answers, back to the guest. */
  lemma Round(reg: Registry, d: Device, marks: nat -> bool, ask: Resolver, owner: nat, cmd: Command,
              mine: seq<Value>, arrived: seq<Value>, args: seq<Value>, calls: seq<Call>, ret: Value, theirs: seq<Value>,
              more: Bytes, rest: Bytes)
    requires RegistryOk(reg) && CommandOk(reg, cmd) && ChainMarks(reg, marks)
    requires |mine| == |arrived| == |theirs| == |cmd.params|
    requires TypedCommand(reg, cmd, mine) && ArriveCommand(reg, cmd, mine) == Some(arrived)
    requires Admit(reg, d, marks, ask, owner, cmd, arrived) == Some((args, calls))
    requires Answered(reg, cmd, args, ret, theirs)
    ensures EncCommand(reg, cmd, mine).Some?
    ensures Serve(reg, d, marks, ask, owner, cmd, EncCommand(reg, cmd, mine).value + more) ==
              Some(((args, calls), more))
    ensures LinksServed(reg, d, Outputs(cmd), Fields(cmd), args)
    ensures ReplyRead(reg, cmd, mine, ret, theirs, rest)
  {
    hide RegistryOk, CommandOk, TypedCommand, TypedReply, EncCommand, DecCommand, EncReply, DecReply, ArriveReply;
    hide Admit, LinksServed, ChainMarks, NormalOutput, NormalElem, Merged, Serve;
    ServesArrived(reg, d, marks, ask, owner, cmd, mine, more);
    Admitted(reg, d, marks, ask, owner, cmd, arrived);
    assert InputsKept(reg, cmd, arrived, theirs);
    Exchange(reg, cmd, mine, ret, theirs, more, rest);
    ExactExchange(reg, cmd, mine, ret, theirs, rest);
  }
}
