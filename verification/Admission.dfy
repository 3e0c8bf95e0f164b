/**
  The values extensions add, recorded with their gates, regrouped gate by gate, and the
  predicates and masks that admit them. A flag word is the set of its bit positions.
 */
module Admission {
  import opened Options
  import opened Gates

  /** One `require` block: the extension it belongs to, what its `depends` text says, and the values
      it adds to enumerations. */
  datatype Block<V> = Block(owner: Name, depends: Option<Expr>, adds: seq<(string, V)>)

  function WithAll(own: Conj, d: Dnf): Dnf {
    seq(|d|, k requires 0 <= k < |d| => own + d[k])
  }

  function GateOf<V>(p: Policy, b: Block<V>): Dnf {
    var own := Atom(p, b.owner);
    if own.None? then []
    else if b.depends.None? then [own.value]
    else WithAll(own.value, DnfOf(p, b.depends.value))
  }

  /** A block counts when its gate can hold and always needs an extension. */
  predicate Gated<V>(p: Policy, b: Block<V>) {
    GateOf(p, b) != [] && {} !in GateOf(p, b)
  }

  /** A device meets a block when it meets its extension and its `depends`. */
  predicate MeetsBlock<V>(p: Policy, enabled: set<string>, b: Block<V>) {
    Known(p, enabled, b.owner) && (b.depends.Some? ==> Sat(p, enabled, b.depends.value))
  }

  /** The gate of a block, read from the text of its `depends`. */
  method ReadGate<V(!new)>(p: Policy, b: Block<V>) returns (gate: Dnf)
    ensures gate == GateOf(p, b)
  {
    var own := Atom(p, b.owner);
    if own.None? { return []; }
    if b.depends.None? { return [own.value]; }
    var text := Show(b.depends.value);
    var parser := new Parser(p, text);
    var read := parser.Expr();
    assert text[0..] == text;
    DependsMeans(p, {}, b.depends.value);
    gate := WithAll(own.value, read.value);
  }

  lemma GateMeans<V>(p: Policy, enabled: set<string>, b: Block<V>)
    ensures Meets(GateOf(p, b), enabled) <==> MeetsBlock(p, enabled, b)
  {
    var own := Atom(p, b.owner);
    if own.Some? && b.depends.Some? {
      var d := DnfOf(p, b.depends.value);
      MeansExpr(p, enabled, b.depends.value);
      if own.value <= enabled && Meets(d, enabled) {
        var k :| 0 <= k < |d| && d[k] <= enabled;
        assert WithAll(own.value, d)[k] <= enabled;
      }
      if Meets(GateOf(p, b), enabled) {
        var k :| 0 <= k < |d| && WithAll(own.value, d)[k] <= enabled;
        assert own.value + d[k] <= enabled;
        assert d[k] <= enabled;
      }
    } else if own.Some? {
      assert GateOf(p, b)[0] == own.value;
    }
  }

  function Lookup<K, V>(m: map<K, seq<V>>, k: K): seq<V> {
    if k in m then m[k] else []
  }

  /** `adds` gives `v` to `name`, and core does not have it. */
  ghost predicate Adds<V>(core: map<string, set<V>>, adds: seq<(string, V)>, name: string, v: V) {
    (name, v) in adds && !(name in core && v in core[name])
  }

  ghost predicate Recorded<V>(p: Policy, core: map<string, set<V>>, blocks: seq<Block<V>>, name: string, v: V,
                              gate: Dnf) {
    exists b | b in blocks :: Gated(p, b) && gate == GateOf(p, b) && Adds(core, b.adds, name, v)
  }

  /** The values of one block, under its gate. */
  method RecordBlock<V(==, !new)>(core: map<string, set<V>>, adds: seq<(string, V)>, gate: Dnf,
                                  before: map<string, seq<(V, Dnf)>>) returns (out: map<string, seq<(V, Dnf)>>)
    ensures forall name, v, g :: (v, g) in Lookup(out, name) <==>
              (v, g) in Lookup(before, name) || (g == gate && Adds(core, adds, name, v))
  {
    out := before;
    for j := 0 to |adds|
      invariant forall name, v, g :: (v, g) in Lookup(out, name) <==>
        (v, g) in Lookup(before, name) || (g == gate && Adds(core, adds[..j], name, v))
    {
      var (name, v) := adds[j];
      assert adds[..j + 1] == adds[..j] + [adds[j]];
      if !(name in core && v in core[name]) {
        out := out[name := Lookup(out, name) + [(v, gate)]];
      }
    }
    assert adds[..|adds|] == adds;
  }

  method Record<V(==, !new)>(p: Policy, core: map<string, set<V>>, blocks: seq<Block<V>>)
    returns (out: map<string, seq<(V, Dnf)>>)
    ensures forall name, v, gate :: (v, gate) in Lookup(out, name) <==> Recorded(p, core, blocks, name, v, gate)
  {
    hide Adds, GateOf;
    out := map[];
    for i := 0 to |blocks|
      invariant forall name, v, gate :: (v, gate) in Lookup(out, name) <==>
                  Recorded(p, core, blocks[..i], name, v, gate)
    {
      var b := blocks[i];
      var gate := ReadGate(p, b);
      assert blocks[..i + 1] == blocks[..i] + [b];
      if gate != [] && {} !in gate {
        out := RecordBlock(core, b.adds, gate, out);
      }
    }
    assert blocks[..|blocks|] == blocks;
  }

  // ---- merged by value, then regrouped by gate -----------------------------------------

  predicate Opens(gate: set<Conj>, enabled: set<string>) {
    exists c | c in gate :: c <= enabled
  }

  /** Some recorded entry has value `v` and lists `c`. */
  ghost predicate Lists<V>(entries: seq<(V, Dnf)>, v: V, c: Conj) {
    exists k | 0 <= k < |entries| :: entries[k].0 == v && c in entries[k].1
  }

  ghost predicate Has<V>(entries: seq<(V, Dnf)>, v: V) {
    exists k | 0 <= k < |entries| :: entries[k].0 == v
  }

  method Merge<V(==, !new)>(entries: seq<(V, Dnf)>) returns (m: map<V, set<Conj>>)
    ensures forall v :: v in m <==> Has(entries, v)
    ensures forall v, c | v in m :: c in m[v] <==> Lists(entries, v, c)
  {
    m := map[];
    for i := 0 to |entries|
      invariant forall v :: v in m <==> Has(entries[..i], v)
      invariant forall v, c | v in m :: c in m[v] <==> Lists(entries[..i], v, c)
    {
      var (v, gate) := entries[i];
      assert entries[..i + 1] == entries[..i] + [entries[i]];
      assert v !in m ==> forall c :: !Lists(entries[..i], v, c);
      m := m[v := (if v in m then m[v] else {}) + set c | c in gate];
    }
    assert entries[..|entries|] == entries;
  }

  method Regroup<V(==, !new)>(m: map<V, set<Conj>>) returns (groups: map<set<Conj>, seq<V>>)
    ensures forall g, v :: v in Lookup(groups, g) <==> v in m && m[v] == g
  {
    groups := map[];
    var left := m.Keys;
    assert forall g :: Lookup(groups, g) == [];
    while left != {}
      invariant left <= m.Keys
      invariant forall g, v :: v in Lookup(groups, g) <==> v in m && v !in left && m[v] == g
    {
      var v :| v in left;
      ghost var before := groups;
      groups := groups[m[v] := Lookup(groups, m[v]) + [v]];
      assert forall g :: Lookup(groups, g) == Lookup(before, g) + if g == m[v] then [v] else [];
      left := left - {v};
    }
  }

  /** On a device, a value some group opens for is a value with an enabled alternative. */
  lemma GroupsMean<V>(entries: seq<(V, Dnf)>, m: map<V, set<Conj>>, groups: map<set<Conj>, seq<V>>,
                      enabled: set<string>, v: V)
    requires v in m <==> Has(entries, v)
    requires v in m ==> forall c :: c in m[v] <==> Lists(entries, v, c)
    requires forall g :: v in Lookup(groups, g) <==> v in m && m[v] == g
    ensures (exists g | g in groups :: Opens(g, enabled) && v in groups[g])
       <==> exists k | 0 <= k < |entries| :: entries[k].0 == v && Meets(entries[k].1, enabled)
  {
    if k :| 0 <= k < |entries| && entries[k].0 == v && Meets(entries[k].1, enabled) {
      var j :| 0 <= j < |entries[k].1| && entries[k].1[j] <= enabled;
      assert Lists(entries, v, entries[k].1[j]);
      assert v in Lookup(groups, m[v]);
    }
    if g :| g in groups && Opens(g, enabled) && v in groups[g] {
      assert v in Lookup(groups, g);
      var c :| c in g && c <= enabled;
      assert Lists(entries, v, c);
    }
  }

  // ---- ranges ---------------------------------------------------------------------------

  predicate Increasing(s: seq<int>) {
    forall i, j | 0 <= i < j < |s| :: s[i] < s[j]
  }

  function Insert(s: seq<int>, x: int): (r: seq<int>)
    requires Increasing(s)
    ensures Increasing(r) && forall y :: y in r <==> y in s || y == x
  {
    if s == [] || x < s[0] then [x] + s
    else if x == s[0] then s
    else
      var tail := Insert(s[1..], x);
      assert forall k | 0 <= k < |tail| :: tail[k] in tail;
      assert s == [s[0]] + s[1..];
      [s[0]] + tail
  }

  function Sorted(s: seq<int>): (r: seq<int>)
    ensures Increasing(r) && forall y :: y in r <==> y in s
  {
    if s == [] then [] else
      assert s == s[..|s| - 1] + [s[|s| - 1]];
      Insert(Sorted(s[..|s| - 1]), s[|s| - 1])
  }

  predicate InRanges(rs: seq<(int, int)>, v: int) {
    exists k | 0 <= k < |rs| :: rs[k].0 <= v <= rs[k].1
  }

  /** The fewest ranges there can be: in order, none empty, no two touching. */
  predicate Separated(rs: seq<(int, int)>) {
    && (forall k | 0 <= k < |rs| :: rs[k].0 <= rs[k].1)
    && (forall j, k | 0 <= j < k < |rs| :: rs[j].1 + 1 < rs[k].0)
  }

  method Ranges(values: seq<int>) returns (out: seq<(int, int)>)
    ensures Separated(out)
    ensures forall v :: InRanges(out, v) <==> v in values
  {
    var vs := Sorted(values);
    out := [];
    for i := 0 to |vs|
      invariant Separated(out)
      invariant out == [] <==> i == 0
      invariant i > 0 ==> out[|out| - 1].1 == vs[i - 1]
      invariant forall v :: InRanges(out, v) <==> v in vs[..i]
    {
      ghost var before := out;
      var v := vs[i];
      assert vs[..i + 1] == vs[..i] + [v];
      if out != [] && v == out[|out| - 1].1 + 1 {
        var n := |out| - 1;
        out := out[n := (out[n].0, v)];
        assert forall w :: InRanges(out, w) <==> InRanges(before, w) || w == v by {
          Widened(before, v);
        }
      } else {
        out := out + [(v, v)];
        assert forall w :: InRanges(out, w) <==> InRanges(before, w) || w == v by {
          Appended(before, v);
        }
      }
    }
    assert vs[..|vs|] == vs;
  }

  lemma Widened(rs: seq<(int, int)>, v: int)
    requires rs != [] && Separated(rs) && v == rs[|rs| - 1].1 + 1
    ensures forall w :: InRanges(rs[|rs| - 1 := (rs[|rs| - 1].0, v)], w) <==> InRanges(rs, w) || w == v
  {
    var n := |rs| - 1;
    var out := rs[n := (rs[n].0, v)];
    forall w
      ensures InRanges(out, w) <==> InRanges(rs, w) || w == v
    {
      if w == v {
        assert out[n].0 <= w <= out[n].1;
      }
      if k :| 0 <= k < |rs| && rs[k].0 <= w <= rs[k].1 {
        assert out[k].0 <= w <= out[k].1;
      }
      if k :| 0 <= k < |out| && out[k].0 <= w <= out[k].1 {
        assert w != v ==> rs[k].0 <= w <= rs[k].1;
      }
    }
  }

  lemma Appended(rs: seq<(int, int)>, v: int)
    ensures forall w :: InRanges(rs + [(v, v)], w) <==> InRanges(rs, w) || w == v
  {
    var out := rs + [(v, v)];
    forall w
      ensures InRanges(out, w) <==> InRanges(rs, w) || w == v
    {
      if w == v {
        assert out[|rs|].0 <= w <= out[|rs|].1;
      }
      if k :| 0 <= k < |rs| && rs[k].0 <= w <= rs[k].1 {
        assert out[k].0 <= w <= out[k].1;
      }
    }
  }

  // ---- the emitted predicates -------------------------------------------------------------

  /** One alternative of an `x_` predicate: a gate and the values behind it. */
  datatype Arm = Arm(gate: set<Conj>, values: seq<(int, int)>)

  predicate Accepts(arms: seq<Arm>, enabled: set<string>, v: int) {
    exists k | 0 <= k < |arms| :: Opens(arms[k].gate, enabled) && InRanges(arms[k].values, v)
  }

  /** Some entry has this value and an alternative the device meets. */
  ghost predicate Offered<V>(entries: seq<(V, Dnf)>, enabled: set<string>, v: V) {
    exists k | 0 <= k < |entries| :: entries[k].0 == v && Meets(entries[k].1, enabled)
  }

  ghost predicate HasArm(arms: seq<Arm>, g: set<Conj>) {
    exists k | 0 <= k < |arms| :: arms[k].gate == g
  }

  method Arms(entries: seq<(int, Dnf)>) returns (arms: seq<Arm>)
    ensures forall enabled, v :: Accepts(arms, enabled, v) <==> Offered(entries, enabled, v)
  {
    var m := Merge(entries);
    var groups := Regroup(m);
    arms := [];
    var left := groups.Keys;
    while left != {}
      invariant left <= groups.Keys
      invariant forall k | 0 <= k < |arms| :: arms[k].gate in groups.Keys - left
                  && forall v :: InRanges(arms[k].values, v) <==> v in groups[arms[k].gate]
      invariant forall g | g in groups :: g in left || HasArm(arms, g)
    {
      var g :| g in left;
      var rs := Ranges(groups[g]);
      ghost var before := arms;
      arms := arms + [Arm(g, rs)];
      assert arms[|before|].gate == g;
      assert forall k | 0 <= k < |before| :: arms[k] == before[k];
      assert forall h | HasArm(before, h) :: HasArm(arms, h);
      left := left - {g};
    }
    forall enabled, v
      ensures Accepts(arms, enabled, v) <==> Offered(entries, enabled, v)
    {
      GroupsMean(entries, m, groups, enabled, v);
      if g :| g in groups && Opens(g, enabled) && v in groups[g] {
        assert HasArm(arms, g);
        var k :| 0 <= k < |arms| && arms[k].gate == g;
        assert InRanges(arms[k].values, v);
      }
    }
  }

  /** Some gated block the device meets adds `v` to `name`. */
  ghost predicate Added(p: Policy, blocks: seq<Block<int>>, name: string, enabled: set<string>, v: int) {
    exists b | b in blocks :: Gated(p, b) && (name, v) in b.adds && MeetsBlock(p, enabled, b)
  }

  /** What the check of an enumeration is for: it accepts the core values and, outside core, the values
      of the gated blocks the device meets. */
  ghost predicate EnumMeans(p: Policy, core: set<int>, blocks: seq<Block<int>>, name: string, always: seq<(int, int)>,
                            arms: seq<Arm>) {
    forall enabled, v :: InRanges(always, v) || Accepts(arms, enabled, v) <==>
      v in core || Added(p, blocks, name, enabled, v)
  }

  /** The check emitted for an enumeration: the core values, or what the enabled extensions add.
      It accepts exactly the core values and, outside core, the values of the gated blocks the
      device meets. */
  method EnumCheck(p: Policy, core: map<string, set<int>>, coreValues: seq<int>, blocks: seq<Block<int>>, name: string)
    returns (always: seq<(int, int)>, arms: seq<Arm>)
    requires name in core && forall v :: v in coreValues <==> v in core[name]
    ensures EnumMeans(p, core[name], blocks, name, always, arms)
  {
    always := Ranges(coreValues);
    var table := Record(p, core, blocks);
    var entries := Lookup(table, name);
    arms := Arms(entries);
    forall enabled, v | v !in core[name]
      ensures Offered(entries, enabled, v) <==> Added(p, blocks, name, enabled, v)
    {
      OffersMean(p, core, blocks, name, entries, enabled, v);
    }
  }

  lemma OffersMean<V(!new)>(p: Policy, core: map<string, set<V>>, blocks: seq<Block<V>>, name: string,
                      entries: seq<(V, Dnf)>, enabled: set<string>, v: V)
    requires forall gate :: (v, gate) in entries <==> Recorded(p, core, blocks, name, v, gate)
    ensures Offered(entries, enabled, v) <==>
            exists b | b in blocks :: Gated(p, b) && Adds(core, b.adds, name, v) && MeetsBlock(p, enabled, b)
  {
    if Offered(entries, enabled, v) {
      var k :| 0 <= k < |entries| && entries[k].0 == v && Meets(entries[k].1, enabled);
      assert (v, entries[k].1) in entries;
      var b :| b in blocks && Gated(p, b) && entries[k].1 == GateOf(p, b) && Adds(core, b.adds, name, v);
      GateMeans(p, enabled, b);
    }
    if b :| b in blocks && Gated(p, b) && Adds(core, b.adds, name, v) && MeetsBlock(p, enabled, b) {
      GateMeans(p, enabled, b);
      assert (v, GateOf(p, b)) in entries;
    }
  }

  // ---- the emitted masks --------------------------------------------------------------------

  type Bits = set<nat>

  datatype MaskArm = MaskArm(gate: set<Conj>, bits: Bits)

  function Union(words: seq<Bits>): (u: Bits)
    ensures forall b :: b in u <==> exists k | 0 <= k < |words| :: b in words[k]
  {
    if words == [] then {}
    else
      assert words == words[..|words| - 1] + [words[|words| - 1]];
      Union(words[..|words| - 1]) + words[|words| - 1]
  }

  /** The word an `m_` helper computes on a device. */
  function MaskOn(arms: seq<MaskArm>, enabled: set<string>): (m: Bits)
    ensures forall b :: b in m <==> exists k | 0 <= k < |arms| :: Opens(arms[k].gate, enabled) && b in arms[k].bits
  {
    if arms == [] then {}
    else
      var last := arms[|arms| - 1];
      assert arms == arms[..|arms| - 1] + [last];
      MaskOn(arms[..|arms| - 1], enabled) + if Opens(last.gate, enabled) then last.bits else {}
  }

  ghost predicate HasMaskArm(arms: seq<MaskArm>, g: set<Conj>) {
    exists k | 0 <= k < |arms| :: arms[k].gate == g
  }

  lemma MaskMeans(entries: seq<(Bits, Dnf)>, groups: map<set<Conj>, seq<Bits>>, arms: seq<MaskArm>,
                  enabled: set<string>, b: nat)
    requires forall w ::
               (exists g | g in groups :: Opens(g, enabled) && w in groups[g]) <==> Offered(entries, enabled, w)
    requires forall k | 0 <= k < |arms| :: arms[k].gate in groups && arms[k].bits == Union(groups[arms[k].gate])
    requires forall g | g in groups :: HasMaskArm(arms, g)
    ensures b in MaskOn(arms, enabled) <==> exists w :: Offered(entries, enabled, w) && b in w
  {
    hide Opens, Offered;
    if w :| Offered(entries, enabled, w) && b in w {
      var g :| g in groups && Opens(g, enabled) && w in groups[g];
      assert HasMaskArm(arms, g);
      var k :| 0 <= k < |arms| && arms[k].gate == g;
      assert b in arms[k].bits;
    }
    if k :| 0 <= k < |arms| && Opens(arms[k].gate, enabled) && b in arms[k].bits {
      var words: seq<Bits> := groups[arms[k].gate];
      var j :| 0 <= j < |words| && b in words[j];
      assert Offered(entries, enabled, words[j]);
    }
  }

  method MaskArms(entries: seq<(Bits, Dnf)>) returns (arms: seq<MaskArm>)
    ensures forall enabled, b :: b in MaskOn(arms, enabled) <==> exists w :: Offered(entries, enabled, w) && b in w
  {
    var m := Merge(entries);
    var groups := Regroup(m);
    arms := [];
    var left := groups.Keys;
    while left != {}
      invariant left <= groups.Keys
      invariant forall k | 0 <= k < |arms| ::
                  arms[k].gate in groups.Keys - left && arms[k].bits == Union(groups[arms[k].gate])
      invariant forall g | g in groups :: g in left || HasMaskArm(arms, g)
    {
      var g :| g in left;
      ghost var before := arms;
      arms := arms + [MaskArm(g, Union(groups[g]))];
      assert arms[|before|].gate == g;
      assert forall k | 0 <= k < |before| :: arms[k] == before[k];
      assert forall h | HasMaskArm(before, h) :: HasMaskArm(arms, h);
      left := left - {g};
    }
    forall enabled, b
      ensures b in MaskOn(arms, enabled) <==> exists w :: Offered(entries, enabled, w) && b in w
    {
      forall w
        ensures (exists g | g in groups :: Opens(g, enabled) && w in groups[g]) <==> Offered(entries, enabled, w)
      {
        GroupsMean(entries, m, groups, enabled, w);
      }
      MaskMeans(entries, groups, arms, enabled, b);
    }
  }

  /** The emitted test of a flag word. */
  predicate FlagPasses(mask: Bits, arms: seq<MaskArm>, zeroOk: bool, enabled: set<string>, word: Bits) {
    (zeroOk || word != {}) && word <= mask + MaskOn(arms, enabled)
  }

  /** What it is for: each bit belongs to a core value or to a value of a gated block the device meets,
      and a member that names bits is not zero unless zero is a core value or the member optional. */
  ghost predicate FlagMeans(p: Policy, core: set<Bits>, blocks: seq<Block<Bits>>, name: string, names: bool,
                            optional: bool, mask: Bits, arms: seq<MaskArm>, zeroOk: bool) {
    forall enabled, word: Bits :: FlagPasses(mask, arms, zeroOk, enabled, word) <==>
      && (names && word == {} ==> optional || {} in core)
      && forall b | b in word :: (exists w | w in core :: b in w) || Extends(p, blocks, name, enabled, b)
  }

  /** The check emitted for a `Flags` word, or for a `FlagBits` member, which `names` bits of one. */
  method FlagCheck(p: Policy, core: map<string, set<Bits>>, coreValues: seq<Bits>, blocks: seq<Block<Bits>>,
                   name: string, names: bool, optional: bool)
    returns (mask: Bits, arms: seq<MaskArm>, zeroOk: bool)
    requires name in core && forall w :: w in coreValues <==> w in core[name]
    ensures FlagMeans(p, core[name], blocks, name, names, optional, mask, arms, zeroOk)
  {
    mask := Union(coreValues);
    var table := Record(p, core, blocks);
    var entries := Lookup(table, name);
    arms := MaskArms(entries);
    zeroOk := !names || {} in coreValues || optional;
    forall enabled, b
      ensures b in mask + MaskOn(arms, enabled) <==>
              (exists w | w in core[name] :: b in w) || Extends(p, blocks, name, enabled, b)
    {
      BitMeans(p, core, blocks, name, entries, enabled, b);
      assert b in mask <==> exists w | w in core[name] :: b in w;
    }
  }

  /** Bit `b` is in a value some gated block adds that the device meets. */
  ghost predicate Extends(p: Policy, blocks: seq<Block<Bits>>, name: string, enabled: set<string>, b: nat) {
    exists k, w | 0 <= k < |blocks| && (name, w) in blocks[k].adds ::
      b in w && Gated(p, blocks[k]) && MeetsBlock(p, enabled, blocks[k])
  }

  lemma BitMeans(p: Policy, core: map<string, set<Bits>>, blocks: seq<Block<Bits>>, name: string,
                 entries: seq<(Bits, Dnf)>, enabled: set<string>, b: nat)
    requires name in core
    requires forall w, gate :: (w, gate) in entries <==> Recorded(p, core, blocks, name, w, gate)
    ensures (exists w | w in core[name] :: b in w) || (exists w :: Offered(entries, enabled, w) && b in w)
       <==> (exists w | w in core[name] :: b in w) || Extends(p, blocks, name, enabled, b)
  {
    if w :| Offered(entries, enabled, w) && b in w {
      OffersMean(p, core, blocks, name, entries, enabled, w);
      var k :| 0 <= k < |blocks| && Gated(p, blocks[k]) && Adds(core, blocks[k].adds, name, w)
               && MeetsBlock(p, enabled, blocks[k]);
      assert (name, w) in blocks[k].adds && b in w;
    }
    if k, w :| 0 <= k < |blocks| && (name, w) in blocks[k].adds && b in w
               && Gated(p, blocks[k]) && MeetsBlock(p, enabled, blocks[k]) {
      OffersMean(p, core, blocks, name, entries, enabled, w);
      assert w in core[name] || Adds(core, blocks[k].adds, name, w);
    }
  }
}
