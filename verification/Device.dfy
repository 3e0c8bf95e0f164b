/**
  The translation walk on a device: which links it lets through and which scalars, from where a
  structure comes and what the device enabled.
 */
module Device {
  import opened Options
  import opened Schema
  import opened Codec
  import opened Graphs
  import opened Passes
  import opened Translate
  import opened Views
  import opened Visibility
  import opened LinkView
  import Admission
  import Gates
  import Wire

  // ---- links ------------------------------------------------------------------------------------

  /** Where a structure comes from: the first core version that has it, packed, and the extensions
      that add it. */
  datatype Origin = Origin(core: Option<nat>, extensions: set<string>)

  /** The newest core version served, the extensions admitted, which of those are the protocol's own,
      and those the executor answers itself. An admitted one that is not the protocol's is in scope: a
      device has to enable it. */
  datatype LinkPolicy = LinkPolicy(api: nat, admitted: set<string>, protocol: set<string>, emulated: set<string>,
                                   origins: map<nat, Origin>)

  function Scope(p: LinkPolicy): set<string> {
    p.admitted - p.protocol
  }

  predicate IsCore(p: LinkPolicy, ty: nat) {
    ty !in p.origins || (p.origins[ty].core.Some? && p.origins[ty].core.value <= p.api)
  }

  predicate IsAdmitted(p: LinkPolicy, ty: nat) {
    IsCore(p, ty) || p.origins[ty].extensions * p.admitted != {}
  }

  /** What the executor asks of every link of a command, wherever it is and on every device, before
      anything else looks at it. */
  predicate Screened(p: LinkPolicy, ty: nat) {
    ty in p.origins && (IsCore(p, ty) || p.origins[ty].extensions * (p.admitted + p.emulated) != {})
  }

  /** The extensions a link is refused without, all of them missing. */
  function LinkGate(p: LinkPolicy, ty: nat): set<string> {
    if IsCore(p, ty) then {} else p.origins[ty].extensions * Scope(p)
  }

  /** One arm of the emitted match on a parent's links. */
  datatype LinkArm = LinkArm(ty: nat, gate: set<string>)

  function ArmsOf(p: LinkPolicy, chain: seq<nat>): seq<LinkArm> {
    if chain == [] then []
    else
      var last := chain[|chain| - 1];
      ArmsOf(p, chain[..|chain| - 1]) + if IsAdmitted(p, last) then [LinkArm(last, LinkGate(p, last))] else []
  }

  /** The match emitted for a parent's links lets through exactly the served structures of its chain. */
  method EmitArms(p: LinkPolicy, chain: seq<nat>) returns (arms: seq<LinkArm>)
    ensures arms == ArmsOf(p, chain)
    ensures forall enabled, ty :: LinkPasses(arms, enabled, ty) <==> ty in chain && Served(p, enabled, ty)
  {
    arms := [];
    for i := 0 to |chain|
      invariant arms == ArmsOf(p, chain[..i])
    {
      assert chain[..i + 1][..i] == chain[..i];
      if IsAdmitted(p, chain[i]) {
        arms := arms + [LinkArm(chain[i], LinkGate(p, chain[i]))];
      }
    }
    assert chain[..|chain|] == chain;
    forall enabled, ty ensures LinkPasses(arms, enabled, ty) <==> ty in chain && Served(p, enabled, ty) {
      LinkRule(p, chain, enabled, ty);
    }
  }

  /** Some arm takes the link, and its gate, if it has one, is open. */
  predicate LinkPasses(arms: seq<LinkArm>, enabled: set<string>, ty: nat) {
    exists k | 0 <= k < |arms| :: arms[k].ty == ty && (arms[k].gate == {} || arms[k].gate * enabled != {})
  }

  /** Added by an admitted extension, and by none a device has to enable. */
  predicate ProtocolOwned(p: LinkPolicy, ty: nat) {
    ty in p.origins && p.origins[ty].extensions * p.admitted != {} && p.origins[ty].extensions * Scope(p) == {}
  }

  predicate EnabledOn(p: LinkPolicy, enabled: set<string>, ty: nat) {
    ty in p.origins && p.origins[ty].extensions * Scope(p) * enabled != {}
  }

  /** Core up to the served version, the protocol's own, or brought by an extension in scope that the
      device enabled. */
  predicate Served(p: LinkPolicy, enabled: set<string>, ty: nat) {
    IsCore(p, ty) || ProtocolOwned(p, ty) || EnabledOn(p, enabled, ty)
  }

  /** The arms emitted for a chain let through exactly its served structures. */
  lemma {:induction false} LinkRule(p: LinkPolicy, chain: seq<nat>, enabled: set<string>, ty: nat)
    ensures LinkPasses(ArmsOf(p, chain), enabled, ty) <==> ty in chain && Served(p, enabled, ty)
  {
    if chain != [] {
      var front, last := chain[..|chain| - 1], chain[|chain| - 1];
      LinkRule(p, front, enabled, ty);
      assert chain == front + [last];
      OneArm(p, enabled, last);
      var before, arms := ArmsOf(p, front), ArmsOf(p, chain);
      assert forall k | 0 <= k < |before| :: arms[k] == before[k];
      if IsAdmitted(p, last) {
        assert arms[|before|] == LinkArm(last, LinkGate(p, last));
      }
    }
  }

  lemma OneArm(p: LinkPolicy, enabled: set<string>, ty: nat)
    ensures IsAdmitted(p, ty) && (LinkGate(p, ty) == {} || LinkGate(p, ty) * enabled != {}) <==> Served(p, enabled, ty)
  {
    if !IsCore(p, ty) && EnabledOn(p, enabled, ty) {
      var x :| x in p.origins[ty].extensions * Scope(p) * enabled;
      assert x in p.origins[ty].extensions * p.admitted;
    }
  }

  // ---- scalars ---------------------------------------------------------------------------------------

  /** The check emitted for a scalar field. */
  datatype Check =
    | Unchecked
    | Enumerated(always: seq<(int, int)>, arms: seq<Admission.Arm>)
    | Flags(mask: Admission.Bits, maskArms: seq<Admission.MaskArm>, zeroOk: bool)

  /** A 32-bit pattern as the signed number it is. */
  function Signed(n: nat): int {
    if n < 0x8000_0000 then n else n - 0x1_0000_0000
  }

  function BitsOf(n: nat): set<nat> {
    set b: nat | b < 64 && n / Pow2(b) % 2 == 1
  }

  predicate CheckPasses(c: Check, enabled: set<string>, n: nat) {
    match c
    case Unchecked => true
    case Enumerated(always, arms) =>
      Admission.InRanges(always, Signed(n)) || Admission.Accepts(arms, enabled, Signed(n))
    case Flags(mask, arms, zeroOk) => Admission.FlagPasses(mask, arms, zeroOk, enabled, BitsOf(n))
  }

  // ---- a device's rules ------------------------------------------------------------------------------------

  datatype Device = Device(links: LinkPolicy, enabled: set<string>, nullable: (nat, nat) -> bool,
                           owned: (nat, nat) -> bool, checks: (nat, nat) -> Check)

  function RulesOf(reg: Registry, d: Device): Rules {
    Rules(d.nullable, d.owned,
          (owner: nat, field: nat, n: nat) => CheckPasses(d.checks(owner, field), d.enabled, n),
          (parent: nat, ty: nat) =>
            IsStruct(reg, parent) && LinkPasses(ArmsOf(d.links, reg[parent].chain), d.enabled, ty))
  }

  function ScreenedOn(d: Device): LinkTest {
    (_: nat, ty: nat) => Screened(d.links, ty)
  }

  function ServedOn(d: Device): LinkTest {
    (_: nat, ty: nat) => Served(d.links, d.enabled, ty)
  }

  /** What reaches the walk on a device, and what it lets through. */
  function GuardOf(d: Device): Guard {
    Guard(ScreenedOn(d), ServedOn(d))
  }

  // ---- a translation on a device -----------------------------------------------------------------------------------

  lemma ServedAdmitting(reg: Registry, d: Device)
    ensures Admitting(RulesOf(reg, d), GuardOf(d))
  {
    forall parent: nat, ty: nat | RulesOf(reg, d).admits(parent, ty) ensures GuardOf(d).admitted(parent, ty) {
      assert IsStruct(reg, parent);
      LinkRule(d.links, reg[parent].chain, d.enabled, ty);
    }
  }

  /** On a device: what passes the screen and has its links in view served has every link served, if and
      only if the field is tight. */
  lemma TightOnDevice(reg: Registry, d: Device, fs: seq<Field>, k: nat)
    requires RegistryOk(reg) && FieldsOk(reg, |reg|, fs) && k < |fs|
    ensures TightField(reg, GuardOf(d), fs[k]) <==>
            forall v | && AllOf(ScreenedOn(d), WalkField(reg, All, true, fs[k], v))
                       && AllOf(ServedOn(d), WalkField(reg, All, false, fs[k], v)) ::
              AllOf(ServedOn(d), WalkField(reg, All, true, fs[k], v))
  {
    hide RegistryOk, FieldsOk, WalkField, TightField, ScreenedOn, ServedOn;
    TightExactly(reg, GuardOf(d), fs, k);
  }

  /** In view every link of a lawful input is served; in a tight field every link is. */
  lemma ServedLinks(reg: Registry, d: Device, owner: nat, outputs: set<nat>, fs: seq<Field>, vals: seq<Value>, k: nat)
    requires k < |fs| == |vals| && k !in outputs && LawfulFields(reg, RulesOf(reg, d), owner, outputs, fs, vals, 0)
    requires AllOf(ScreenedOn(d), WalkField(reg, All, true, fs[k], vals[k]))
    ensures AllOf(ServedOn(d), WalkField(reg, All, false, fs[k], vals[k]))
    ensures TightField(reg, GuardOf(d), fs[k]) ==> AllOf(ServedOn(d), WalkField(reg, All, true, fs[k], vals[k]))
  {
    hide WalkField, LawfulFields, RulesOf, ShutField, ScreenedOn, ServedOn;
    AdmitsInput(reg, RulesOf(reg, d), owner, outputs, fs, vals, 0, k);
    ServedAdmitting(reg, d);
    if TightField(reg, GuardOf(d), fs[k]) {
      TightIn(reg, GuardOf(d), false, fs[k], vals[k]);
    }
  }

  /** A screened command translated on a device. It succeeds exactly when its inputs are lawful and every
      handle is answered. Then every input handle was asked for once, in order and with its kind, each
      answer is in its place and nothing else changed. Every link in view is core, the protocol's own or
      enabled, and in a tight input every link is. */
  lemma TranslatesOnDevice(reg: Registry, d: Device, ask: Resolver, owner: nat, outputs: set<nat>, fs: seq<Field>,
                           vals: seq<Value>)
    requires RegistryOk(reg) && FieldsOk(reg, |reg|, fs) && |vals| == |fs|
    requires InputsClear(reg, GuardOf(d), outputs, fs, vals)
    ensures var r := RulesOf(reg, d);
            var out := TFields(reg, r, ask, owner, outputs, fs, vals, [], []);
            var handles := CallsFields(reg, r, true, owner, outputs, fs, vals, 0);
            && (out.Some? <==> LawfulFields(reg, r, owner, outputs, fs, vals, 0) && Answers(ask, [], handles).Some?)
            && (out.Some? ==>
                  && out.value.1 == handles
                  && SameButHandles(reg, fs, out.value.0, vals)
                  && CallsFields(reg, r, true, owner, outputs, fs, out.value.0, 0) ==
                    Refilled(handles, Answers(ask, [], handles).value)
                  && LinksServed(reg, d, outputs, fs, out.value.0))
  {
    hide RulesOf, ClearField, RegistryOk, FieldsOk, TFields, CallsFields, LawfulFields;
    ServedAdmitting(reg, d);
    TranslatesCommand(reg, RulesOf(reg, d), GuardOf(d), ask, owner, outputs, fs, vals);
    if TFields(reg, RulesOf(reg, d), ask, owner, outputs, fs, vals, [], []).Some? {
      AfterTranslation(reg, d, ask, owner, outputs, fs, vals);
    }
  }

  ghost predicate LinksServed(reg: Registry, d: Device, outputs: set<nat>, fs: seq<Field>, vals: seq<Value>) {
    && |vals| == |fs|
    && forall k | 0 <= k < |fs| && k !in outputs ::
         && AllOf(ScreenedOn(d), WalkField(reg, All, true, fs[k], vals[k]))
         && AllOf(ServedOn(d), WalkField(reg, All, false, fs[k], vals[k]))
         && (TightField(reg, GuardOf(d), fs[k]) ==> AllOf(ServedOn(d), WalkField(reg, All, true, fs[k], vals[k])))
  }

  /** Whatever its handles, a screened command that translates has its links in view served, and where an
      input is tight all of them. */
  lemma AfterTranslation(reg: Registry, d: Device, ask: Resolver, owner: nat, outputs: set<nat>, fs: seq<Field>,
                         vals: seq<Value>)
    requires RegistryOk(reg) && FieldsOk(reg, |reg|, fs) && |vals| == |fs|
    requires forall k | 0 <= k < |fs| && k !in outputs ::
               AllOf(ScreenedOn(d), WalkField(reg, All, true, fs[k], vals[k]))
    requires TFields(reg, RulesOf(reg, d), ask, owner, outputs, fs, vals, [], []).Some?
    ensures var out := TFields(reg, RulesOf(reg, d), ask, owner, outputs, fs, vals, [], []).value.0;
            SameButHandles(reg, fs, out, vals) && LinksServed(reg, d, outputs, fs, out)
  {
    hide RegistryOk, FieldsOk, RulesOf, WalkField, AllOf, TightField, LawfulFields, TFields;
    var r := RulesOf(reg, d);
    var out := TFields(reg, r, ask, owner, outputs, fs, vals, [], []).value.0;
    assert Mixed([], vals) == vals;
    TranslatesFields(reg, |reg|, r, ask, owner, outputs, fs, vals, [], []);
    forall k | 0 <= k < |fs| && k !in outputs
      ensures && AllOf(ScreenedOn(d), WalkField(reg, All, true, fs[k], out[k]))
              && AllOf(ServedOn(d), WalkField(reg, All, false, fs[k], out[k]))
              && (TightField(reg, GuardOf(d), fs[k]) ==> AllOf(ServedOn(d), WalkField(reg, All, true, fs[k], out[k])))
    {
      SameLinks(reg, true, fs[k], vals[k], out[k]);
      ServedLinks(reg, d, owner, outputs, fs, out, k);
    }
  }

  /** Whatever lawful values a command has, an input that hides such links can be given one that passes the
      screen, is not served, and that the walk passes over: the command still translates as soon as the
      handles in view are answered. */
  lemma LinkSlips(reg: Registry, d: Device, ask: Resolver, owner: nat, outputs: set<nat>, fs: seq<Field>,
                  vals: seq<Value>, k: nat) returns (w: Value)
    requires RegistryOk(reg) && FieldsOk(reg, |reg|, fs) && |vals| == |fs|
    requires LawfulFields(reg, RulesOf(reg, d), owner, outputs, fs, vals, 0)
    requires k < |fs| && k !in outputs && Hides(reg, GuardOf(d), Strays(reg, GuardOf(d)), fs[k])
    requires fs[k].shape.Dyn? ==> Wanted(fs[k], vals) > 0
    ensures AllOf(ScreenedOn(d), WalkField(reg, All, true, fs[k], w))
    ensures !AllOf(ServedOn(d), WalkField(reg, All, true, fs[k], w))
    ensures var r := RulesOf(reg, d);
            TFields(reg, r, ask, owner, outputs, fs, vals[k := w], [], []).Some? <==>
            Answers(ask, [], CallsFields(reg, r, false, owner, outputs, fs, vals[k := w], 0)).Some?
  {
    hide RegistryOk, FieldsOk, LawfulFields, Filling, WalkField, WalkElem, Wanted, RulesOf, Straying;
    hide ScreenedOn, ServedOn;
    var g, f, at := GuardOf(d), fs[k], Site(0, 0, false, false);
    var x := StrayIn(reg, g, |reg|, fs, k);
    w := Filling(f, vals, x);
    FillingHides(reg, RulesOf(reg, d), at, g.screened, f, vals, x);
    FillingHides(reg, RulesOf(reg, d), at, g.admitted, f, vals, x);
    PlantedTranslates(reg, RulesOf(reg, d), ask, owner, outputs, fs, vals, k, x);
  }

  /** A union that holds a structure with a chain. */
  function ChainedUnion(): Registry {
    [StructDef(Some(5), [], [], false), StructDef(Some(6), [0], [], false),
     UnionDef(false, 4, 0, [Case([0], Field(Plain(Struct(1)), true, None))])]
  }

  /** A link in a union, of an extension the policy admits and the device did not enable: the screen lets
      it by, no handle is hidden, and the walk lets it through. */
  lemma HiddenLink(d: Device, name: string, ask: Resolver)
    requires d.links.origins == map[0 := Origin(None, {name})] && name !in d.enabled
    requires d.links.admitted == {name} && d.links.protocol == {}
    ensures var reg, fs := ChainedUnion(), [Field(Plain(Union(2)), true, None)];
            var vals := [Variant(0, Rec([Link(0, Rec([], []))], []))];
            && RegistryOk(reg) && FieldsOk(reg, |reg|, fs) && InputsClear(reg, GuardOf(d), {}, fs, vals)
            && TFields(reg, RulesOf(reg, d), ask, 0, {}, fs, vals, [], []) == Some((vals, []))
            && WalkField(reg, All, true, fs[0], vals[0]) == [(1, 0)]
            && Screened(d.links, 0) && !Served(d.links, d.enabled, 0)
  {
    assert Screened(d.links, 0) by {
      assert name in d.links.origins[0].extensions * (d.links.admitted + d.links.emulated);
    }
    assert !Served(d.links, d.enabled, 0) by {
      assert name in d.links.origins[0].extensions * Scope(d.links);
    }
    hide WalkField, RegistryOk, FieldsOk, ClearField, TFields, RulesOf, ChainedUnion, Served, Screened;
    var reg, f := ChainedUnion(), Field(Plain(Union(2)), true, None);
    var v := Variant(0, Rec([Link(0, Rec([], []))], []));
    ChainedUnionOk(reg, GuardOf(d));
    ChainedUnionWalk(reg, f, v);
    UnionPassed(reg, RulesOf(reg, d), ask, f, v);
  }

  lemma UnionPassed(reg: Registry, r: Rules, ask: Resolver, f: Field, v: Value)
    requires f.shape.Plain? && f.shape.elem.Union?
    ensures TFields(reg, r, ask, 0, {}, [f], [v], [], []) == Some(([v], []))
  {
    assert [] + [v] == [v];
    assert TFields(reg, r, ask, 0, {}, [f], [v], [v], []) == Some(([v], []));
    assert TField(reg, r, ask, SiteOf(r, 0, 0, f), f, 0, v, []) == Some((v, []));
  }

  lemma ChainedUnionOk(reg: Registry, g: Guard)
    requires reg == ChainedUnion()
    ensures var fs := [Field(Plain(Union(2)), true, None)];
            RegistryOk(reg) && FieldsOk(reg, |reg|, fs) && ClearField(reg, g, fs[0])
  {
    Wire.Bases();
    assert CaseFor(reg[2].cases, 0) == 0;
    assert TypeOk(reg, 0) && TypeOk(reg, 1) && TypeOk(reg, 2);
    assert Holding(reg[0]) == [] && Holding(reg[1]) == [] && Holding(reg[2]) == [reg[2].cases[0].member];
    assert Handling(reg) == {};
  }

  lemma ChainedUnionWalk(reg: Registry, f: Field, v: Value)
    requires reg == ChainedUnion() && f == Field(Plain(Union(2)), true, None)
    requires v == Variant(0, Rec([Link(0, Rec([], []))], []))
    ensures WalkField(reg, All, true, f, v) == [(1, 0)]
  {
    var s, l := v.member, Link(0, Rec([], []));
    assert s == Bare(reg, 1, [l]) && l.body == Bare(reg, 0, []);
    BareWalk(reg, true, 1, l);
    BlankWalk(reg, true, 0);
    WalkOfStruct(reg, true, 1, s);
    var member := reg[2].cases[0].member;
    assert WalkField(reg, All, true, member, s) == WalkElem(reg, All, true, Struct(1), s);
    assert WalkUnion(reg, All, true, 2, v) == WalkField(reg, All, true, member, s);
    assert WalkElem(reg, All, true, Union(2), v) == WalkUnion(reg, All, true, 2, v);
  }

  // ---- the scalar checks -------------------------------------------------------------------------

  /** The check built for enumeration `name` from the registry's blocks: on every device it accepts
      exactly the core values and those of gated blocks the device meets. */
  method EmitEnumCheck(p: Gates.Policy, core: map<string, set<int>>, coreValues: seq<int>,
                       blocks: seq<Admission.Block<int>>, name: string) returns (c: Check)
    requires name in core && forall v :: v in coreValues <==> v in core[name]
    ensures forall enabled, n: nat :: CheckPasses(c, enabled, n) <==>
              Signed(n) in core[name] || Admission.Added(p, blocks, name, enabled, Signed(n))
  {
    var always, arms := Admission.EnumCheck(p, core, coreValues, blocks, name);
    c := Enumerated(always, arms);
    forall enabled, n: nat
      ensures CheckPasses(c, enabled, n) <==>
              Signed(n) in core[name] || Admission.Added(p, blocks, name, enabled, Signed(n))
    {
      assert CheckPasses(c, enabled, n) ==
        (Admission.InRanges(always, Signed(n)) || Admission.Accepts(arms, enabled, Signed(n)));
    }
  }

  /** The check built for a flag word: on every device each bit has to be core or of a gated block the
      device meets, and a word that has to name a bit must not be zero. */
  method EmitFlagCheck(p: Gates.Policy, core: map<string, set<Admission.Bits>>, coreValues: seq<Admission.Bits>,
                       blocks: seq<Admission.Block<Admission.Bits>>, name: string, names: bool, optional: bool)
    returns (c: Check)
    requires name in core && forall w :: w in coreValues <==> w in core[name]
    ensures forall enabled, n: nat :: CheckPasses(c, enabled, n) <==>
              && (names && BitsOf(n) == {} ==> optional || {} in core[name])
              && forall b | b in BitsOf(n) ::
                   (exists w | w in core[name] :: b in w) || Admission.Extends(p, blocks, name, enabled, b)
  {
    var mask, arms, zeroOk := Admission.FlagCheck(p, core, coreValues, blocks, name, names, optional);
    c := Flags(mask, arms, zeroOk);
    assert forall enabled, n: nat ::
      CheckPasses(c, enabled, n) == Admission.FlagPasses(mask, arms, zeroOk, enabled, BitsOf(n));
  }
}
