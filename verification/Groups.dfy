/**
  The partition of types into the generated files: each type in the file of the only command
  group that needs it, or in the common file.
 */
module Groups {
  import opened Graphs

  // ---- what a group needs ------------------------------------------------------------------

  /** `rank` shows that the type graph has no cycle. */
  ghost predicate Ranked<T(!new)>(g: Graph<T>, rank: T -> nat) {
    forall x, y | y in Succ(g, x) :: rank(y) < rank(x)
  }

  /** Adds a type after everything it depends on. */
  method AddTypes<T(==, !new)>(g: Graph<T>, ghost rank: T -> nat, types: set<T>, x: T) returns (out: set<T>)
    requires Ranked(g, rank) && Closed(g, types)
    ensures Closed(g, out)
    ensures forall y :: y in out <==> y in types || Reaches(g, x, y)
    decreases rank(x)
  {
    if x in types {
      forall y | Reaches(g, x, y) ensures y in types { ClosedKeeps(g, types, x, y); }
      return types;
    }
    out := types;
    var deps := Succ(g, x);
    for k := 0 to |deps|
      invariant Closed(g, out) && types <= out
      invariant forall j | 0 <= j < k :: deps[j] in out
      invariant forall y | y in out :: y in types || Reaches(g, x, y)
    {
      ghost var before := out;
      assert deps[k] in Succ(g, x);
      ReachesSelf(g, deps[k]);
      out := AddTypes(g, rank, out, deps[k]);
      forall y | y in out && y !in before ensures Reaches(g, x, y) {
        StepThen(g, x, deps[k], y);
      }
    }
    out := out + {x};
    ReachesSelf(g, x);
    forall y | Reaches(g, x, y) ensures y in out { ClosedKeeps(g, out, x, y); }
  }

  // ---- each type in one set ---------------------------------------------------------------------

  /** Some group before `i` has `t`. */
  predicate Earlier<T(==)>(s: seq<set<T>>, t: T, i: int) {
    exists k | 0 <= k < |s| && k < i :: t in s[k]
  }

  /** Some group from `i` up to `j` has `t`. */
  predicate Later<T(==)>(s: seq<set<T>>, t: T, i: int, j: int) {
    exists k | 0 <= k < |s| && i < k < j :: t in s[k]
  }

  /** A group before `i` shares `t` with a group after it. */
  predicate Shared<T(==)>(s: seq<set<T>>, t: T, i: int) {
    exists k | 0 <= k < |s| && k < i :: t in s[k] && Later(s, t, k, |s|)
  }

  /** `t` is in group `i` and in no other. */
  predicate Only<T(==)>(s: seq<set<T>>, t: T, i: nat)
    requires i < |s|
  {
    t in s[i] && forall k | 0 <= k < |s| && t in s[k] :: k == i
  }

  /** Two groups have `t`. */
  predicate Twice<T(==)>(s: seq<set<T>>, t: T) {
    exists j, k | 0 <= j < k < |s| :: t in s[j] && t in s[k]
  }

  /** The inner loop: what group `i` shares with a later one leaves that one for the common set. */
  method Strip<T(==, !new)>(groups: array<set<T>>, i: nat, common0: set<T>) returns (common: set<T>)
    requires i < groups.Length
    modifies groups
    ensures forall m | 0 <= m <= i :: groups[m] == old(groups[m])
    ensures forall m | i < m < groups.Length :: groups[m] == old(groups[m]) - old(groups[i])
    ensures forall t :: t in common <==>
              t in common0 || (t in old(groups[i]) && Later(old(groups[..]), t, i, groups.Length))
  {
    ghost var s := groups[..];
    common := common0;
    for j := i + 1 to groups.Length
      invariant forall m | 0 <= m <= i :: groups[m] == s[m]
      invariant forall m | i < m < j :: groups[m] == s[m] - s[i]
      invariant forall m | j <= m < groups.Length :: groups[m] == s[m]
      invariant forall t :: t in common <==> t in common0 || (t in s[i] && Later(s, t, i, j))
    {
      var intersection := groups[i] * groups[j];
      assert forall t :: Later(s, t, i, j + 1) <==> Later(s, t, i, j) || t in s[j];
      if intersection != {} {
        groups[j] := groups[j] - intersection;
        common := common + intersection;
      }
      assert forall t | t in s[i] && t in s[j] :: t in intersection;
      assert groups[j] == s[j] - s[i];
    }
  }

  /** The nested loop, in place. */
  method Partition<T(==, !new)>(groups: array<set<T>>) returns (common: set<T>)
    modifies groups
    ensures forall i, t | 0 <= i < groups.Length :: t in groups[i] <==> Only(old(groups[..]), t, i)
    ensures forall t :: t in common <==> Twice(old(groups[..]), t)
  {
    ghost var s := groups[..];
    common := {};
    for i := 0 to groups.Length
      invariant forall j, t | 0 <= j < i :: t in groups[j] <==> Only(s, t, j)
      invariant forall j, t | i <= j < groups.Length :: t in groups[j] <==> t in s[j] && !Earlier(s, t, i)
      invariant forall t :: t in common <==> Shared(s, t, i)
    {
      ghost var before, shared := groups[..], common;
      common := Strip(groups, i, common);
      forall t
        ensures t in common <==> Shared(s, t, i + 1)
        ensures t in groups[i] && t !in common <==> Only(s, t, i)
        ensures Earlier(s, t, i + 1) <==> Earlier(s, t, i) || t in s[i]
      {
        Advance(s, t, i);
        StillLater(s, before, t, i);
      }
      forall j, t | i < j < groups.Length
        ensures t in groups[j] <==> t in s[j] && !Earlier(s, t, i + 1)
      {
        assert t in groups[j] <==> t in before[j] && t !in before[i];
        Advance(s, t, i);
      }
      groups[i] := groups[i] - common;
    }
    forall t
      ensures Shared(s, t, |s|) <==> Twice(s, t)
    {
      if Twice(s, t) {
        var j, k :| 0 <= j < k < |s| && t in s[j] && t in s[k];
        assert Later(s, t, j, |s|);
      }
    }
  }

  /** A type no earlier group has is untouched so far. */
  lemma StillLater<T(!new)>(s: seq<set<T>>, now: seq<set<T>>, t: T, i: nat)
    requires |now| == |s| && i < |s|
    requires forall j | i <= j < |s| :: t in now[j] <==> t in s[j] && !Earlier(s, t, i)
    ensures t in now[i] && Later(now, t, i, |s|) <==> t in s[i] && !Earlier(s, t, i) && Later(s, t, i, |s|)
  {
  }

  lemma Advance<T>(s: seq<set<T>>, t: T, i: nat)
    requires i < |s|
    ensures Earlier(s, t, i + 1) <==> Earlier(s, t, i) || t in s[i]
    ensures Shared(s, t, i + 1) <==> Shared(s, t, i) || (t in s[i] && !Earlier(s, t, i) && Later(s, t, i, |s|))
    ensures t in s[i] && !Earlier(s, t, i) && !Later(s, t, i, |s|) <==> Only(s, t, i)
    ensures t in s[i] && Shared(s, t, i + 1) ==> !Only(s, t, i)
    ensures t in s[i] && !Earlier(s, t, i) && Shared(s, t, i + 1) ==> Later(s, t, i, |s|)
  {
    if t in s[i] && Earlier(s, t, i) {
      var k :| 0 <= k < |s| && k < i && t in s[k];
      assert Later(s, t, k, |s|);
      assert Shared(s, t, i);
    }
  }

  // ---- the placement --------------------------------------------------------------------------------

  /** The groups that reach a type, in order. */
  function Reaching<T(==)>(reach: seq<set<T>>, t: T): (gs: seq<nat>)
    ensures forall i :: i in gs <==> 0 <= i < |reach| && t in reach[i]
    ensures forall j, k | 0 <= j < k < |gs| :: gs[j] < gs[k]
  {
    if reach == [] then []
    else
      var n := |reach| - 1;
      var before := Reaching(reach[..n], t);
      assert forall k | 0 <= k < |before| :: before[k] in before;
      if t in reach[n] then before + [n] else before
  }

  /** The Rust generator's rule: the only group that reaches a type owns it, else the common one. */
  function Owner<T(==)>(reach: seq<set<T>>, t: T, common: nat): nat {
    var gs := Reaching(reach, t);
    if |gs| == 1 then gs[0] else common
  }

  /** Both rules give every reached type the same home. */
  lemma OwnerAgrees<T>(reach: seq<set<T>>, t: T, common: nat, i: nat)
    requires i < |reach| && t in reach[i] && common >= |reach|
    ensures Owner(reach, t, common) == i <==> Only(reach, t, i)
    ensures Owner(reach, t, common) == common <==> Twice(reach, t)
  {
    var gs := Reaching(reach, t);
    assert i in gs && forall k | 0 <= k < |gs| :: gs[k] in gs;
    if |gs| == 1 {
      assert gs[0] == i;
      assert forall k | 0 <= k < |reach| && t in reach[k] :: k in gs;
    } else {
      assert gs[0] < gs[1] && t in reach[gs[0]] && t in reach[gs[1]];
    }
  }

  /** Where a dependency may be looked for: among what the group reaches, or, once redirected, in
      the common set. */
  ghost predicate Covered<T(!new)>(reach: seq<set<T>>, group: nat, t: T) {
    if group < |reach| then t in reach[group] else Twice(reach, t)
  }

  /** A dependency of a covered type is covered, in the same group or in the common one. */
  lemma DepsCovered<T(!new)>(g: Graph<T>, reach: seq<set<T>>, group: nat, t: T, d: T)
    requires forall i | 0 <= i < |reach| :: Closed(g, reach[i])
    requires Covered(reach, group, t) && d in Succ(g, t)
    ensures Covered(reach, group, d)
    ensures group < |reach| && !Only(reach, d, group) ==> Covered(reach, |reach|, d)
  {
    if group < |reach| {
      assert d in reach[group];
      if !Only(reach, d, group) {
        var k :| 0 <= k < |reach| && d in reach[k] && k != group;
        var a, b := if group < k then group else k, if group < k then k else group;
        assert d in reach[a] && d in reach[b];
      }
    } else {
      var j, k :| 0 <= j < k < |reach| && t in reach[j] && t in reach[k];
      assert d in reach[j] && d in reach[k];
    }
  }

  /** `t` is placed in its group or in the common one. */
  predicate Found<T(==)>(placed: seq<set<T>>, group: nat, t: T) {
    (group < |placed| && t in placed[group]) || (placed != [] && t in placed[|placed| - 1])
  }

  /** What a type that can be sent depends on, and nothing for one that cannot. */
  function Sending<T(==)>(g: Graph<T>, serial: set<T>): Graph<T> {
    map x | x in g && x in serial :: g[x]
  }

  /** What was placed since `from` and can be sent has its dependencies placed. */
  ghost predicate Complete<T(!new)>(g: Graph<T>, serial: set<T>, from: seq<set<T>>, placed: seq<set<T>>)
    requires |from| == |placed|
  {
    forall i, x, y | 0 <= i < |placed| && x in placed[i] && x !in from[i] && x in serial && y in Succ(g, x) ::
      Found(placed, i, y)
  }

  lemma StaysComplete<T(!new)>(g: Graph<T>, serial: set<T>, from: seq<set<T>>, mid: seq<set<T>>, placed: seq<set<T>>)
    requires |from| == |mid| == |placed| && (forall i | 0 <= i < |mid| :: mid[i] <= placed[i])
    requires Complete(g, serial, from, mid) && Complete(g, serial, mid, placed)
    ensures Complete(g, serial, from, placed)
    ensures forall i: nat, y | i < |mid| && Found(mid, i, y) :: Found(placed, i, y)
  {
  }

  lemma OneMore<T(!new)>(g: Graph<T>, serial: set<T>, from: seq<set<T>>, start: seq<set<T>>, placed: seq<set<T>>,
                  home: nat, t: T)
    requires |from| == |placed| && home < |from| && start == from[home := from[home] + {t}]
    requires Complete(g, serial, start, placed)
    requires t in serial ==> forall y | y in Succ(g, t) :: Found(placed, home, y)
    ensures Complete(g, serial, from, placed)
  {
  }

  /** Places a type and, if it can be sent, what it depends on, redirecting to the common set what its group does
      not own alone. The assertion in the middle never fails, whatever is placed and can be sent
      has what it depends on placed in the same group or in the common one, and nothing is placed but what
      the type reaches through types that can be sent. */
  method Place<T(==, !new)>(g: Graph<T>, ghost rank: T -> nat, serial: set<T>, reach: seq<set<T>>, sets: seq<set<T>>,
                            generated: seq<set<T>>, group: nat, t: T) returns (out: seq<set<T>>)
    requires Ranked(g, rank) && forall i | 0 <= i < |reach| :: Closed(g, reach[i])
    requires |sets| == |generated| == |reach| + 1 && group <= |reach|
    requires forall i, x | 0 <= i < |reach| :: x in sets[i] <==> Only(reach, x, i)
    requires forall x :: x in sets[|reach|] <==> Twice(reach, x)
    requires forall i | 0 <= i < |sets| :: generated[i] <= sets[i]
    requires Covered(reach, group, t)
    ensures |out| == |sets| && forall i | 0 <= i < |sets| :: generated[i] <= out[i] <= sets[i]
    ensures Found(out, group, t)
    ensures Complete(g, serial, generated, out)
    ensures forall i, x | 0 <= i < |out| && x in out[i] && x !in generated[i] :: Reaches(Sending(g, serial), t, x)
    decreases rank(t)
  {
    ghost var sending := Sending(g, serial);
    ReachesSelf(sending, t);
    hide Reaches;
    var home := group;
    if t !in sets[group] {
      home := |sets| - 1;
      NotAlone(reach, group, t);
      assert t in sets[home];
    }
    out := generated;
    if t in out[home] { return; }
    out := out[home := out[home] + {t}];
    ghost var start := out;
    var deps := if t in serial then Succ(g, t) else [];
    for k := 0 to |deps|
      invariant |out| == |sets| && t in out[home]
      invariant forall i | 0 <= i < |sets| :: generated[i] <= out[i] <= sets[i]
      invariant forall j | 0 <= j < k :: Found(out, home, deps[j])
      invariant forall i | 0 <= i < |sets| :: start[i] <= out[i]
      invariant Complete(g, serial, start, out)
      invariant forall i, x | 0 <= i < |out| && x in out[i] && x !in generated[i] :: Reaches(sending, t, x)
    {
      DepsCovered(g, reach, home, t, deps[k]);
      ghost var mid := out;
      out := Place(g, rank, serial, reach, sets, out, home, deps[k]);
      assert deps[k] in Succ(sending, t);
      forall i, x | 0 <= i < |out| && x in out[i] && x !in mid[i] ensures Reaches(sending, t, x) {
        StepThen(sending, t, deps[k], x);
      }
      StaysComplete(g, serial, start, mid, out);
    }
    OneMore(g, serial, generated, start, out, home, t);
  }

  lemma NotAlone<T(!new)>(reach: seq<set<T>>, group: nat, t: T)
    requires group <= |reach| && Covered(reach, group, t) && (group < |reach| ==> !Only(reach, t, group))
    ensures Twice(reach, t)
  {
    if group < |reach| {
      var k :| 0 <= k < |reach| && t in reach[k] && k != group;
      var a, b := if group < k then group else k, if group < k then k else group;
      assert t in reach[a] && t in reach[b];
    }
  }

  // ---- all of it -----------------------------------------------------------------------------------

  /** A command of group `i` reaches `y`. */
  ghost predicate Needs<T(!new)>(g: Graph<T>, commands: seq<(nat, T)>, i: nat, y: T) {
    exists k | 0 <= k < |commands| :: commands[k].0 == i && Reaches(g, commands[k].1, y)
  }

  /** What every group needs, command by command. */
  method Collect<T(==, !new)>(g: Graph<T>, ghost rank: T -> nat, n: nat,
                   commands: seq<(nat, T)>) returns (groups: array<set<T>>)
    requires Ranked(g, rank) && forall c | c in commands :: c.0 < n
    ensures fresh(groups) && groups.Length == n
    ensures forall i | 0 <= i < n :: Closed(g, groups[i])
    ensures forall i, y | 0 <= i < n :: y in groups[i] <==> Needs(g, commands, i, y)
  {
    groups := new set<T>[n](_ => {});
    for k := 0 to |commands|
      invariant forall i | 0 <= i < n :: Closed(g, groups[i])
      invariant forall i, y | 0 <= i < n :: y in groups[i] <==> Needs(g, commands[..k], i, y)
    {
      var (group, x) := commands[k];
      assert commands[k] in commands;
      ghost var before := groups[..];
      var types := AddTypes(g, rank, groups[group], x);
      groups[group] := types;
      forall i, y | 0 <= i < n
        ensures Needs(g, commands[..k + 1], i, y) <==> Needs(g, commands[..k], i, y) || (i == group && Reaches(g, x, y))
      {
        assert commands[..k + 1] == commands[..k] + [commands[k]];
        NeedsMore(g, commands[..k], commands[k], i, y);
      }
    }
    assert commands[..|commands|] == commands;
  }

  lemma NeedsMore<T(!new)>(g: Graph<T>, commands: seq<(nat, T)>, c: (nat, T), i: nat, y: T)
    ensures Needs(g, commands + [c], i, y) <==> Needs(g, commands, i, y) || (i == c.0 && Reaches(g, c.1, y))
  {
    var all := commands + [c];
    assert all[|commands|] == c;
    if k :| 0 <= k < |commands| && commands[k].0 == i && Reaches(g, commands[k].1, y) {
      assert all[k] == commands[k];
    }
  }

  /** The grouping from end to end: reach sets, partition, placement. Each group gets exactly the types it
      alone needs and the last one those two or more need; no assertion fails on the way; of these types
      exactly those are placed that some command reaches through types that can be sent. */
  method InitGroups<T(==, !new)>(g: Graph<T>, ghost rank: T -> nat, serial: set<T>, n: nat, commands: seq<(nat, T)>)
    returns (sets: seq<set<T>>, placed: seq<set<T>>)
    requires Ranked(g, rank) && forall c | c in commands :: c.0 < n
    ensures |sets| == |placed| == n + 1 && forall i | 0 <= i <= n :: placed[i] <= sets[i]
    ensures forall i, y | 0 <= i < n :: y in sets[i] <==> Alone(g, commands, n, i, y)
    ensures forall y :: y in sets[n] <==> exists i, j | 0 <= i < j < n ::
              Needs(g, commands, i, y) && Needs(g, commands, j, y)
    ensures forall i, y | 0 <= i <= n :: y in placed[i] <==> y in sets[i] && Sent(g, serial, commands, y)
    ensures forall y | Sent(g, serial, commands, y) :: exists i | 0 <= i <= n :: y in placed[i]
    ensures forall c | c in commands :: Found(placed, c.0, c.1)
    ensures Complete(g, serial, Nothing(n + 1), placed)
  {
    hide Only, Twice, Alone, Needs, Closed, Complete, Found, Sent;
    var groups := Collect(g, rank, n, commands);
    var reach := groups[..];
    SharedMeans(g, commands, reach, n);
    var common := Partition(groups);
    sets := groups[..] + [common];
    OwnReached(g, commands, reach, n);
    placed := PlaceAll(g, rank, serial, reach, sets, commands);
    PlacedExactly(g, serial, reach, sets, commands, placed);
  }

  /** Some command reaches `y` through types that can be sent. */
  ghost predicate Sent<T(!new)>(g: Graph<T>, serial: set<T>, commands: seq<(nat, T)>, y: T) {
    exists c | c in commands :: Reaches(Sending(g, serial), c.1, y)
  }

  lemma SentPlaced<T(!new)>(g: Graph<T>, serial: set<T>, commands: seq<(nat, T)>, placed: seq<set<T>>, y: T)
    requires Sent(g, serial, commands, y) && Complete(g, serial, Nothing(|placed|), placed)
    requires forall c | c in commands :: Found(placed, c.0, c.1)
    ensures exists i | 0 <= i < |placed| :: y in placed[i]
  {
    var sending, all := Sending(g, serial), set i, x | 0 <= i < |placed| && x in placed[i] :: x;
    var c :| c in commands && Reaches(sending, c.1, y);
    assert Found(placed, c.0, c.1) && c.1 in all;
    forall x, z | x in all && z in Succ(sending, x) ensures z in all {
      var i :| 0 <= i < |placed| && x in placed[i];
      assert x !in Nothing<T>(|placed|)[i];
      assert Found(placed, i, z);
    }
    ClosedKeeps(sending, all, c.1, y);
  }

  lemma PlacedExactly<T(!new)>(g: Graph<T>, serial: set<T>, reach: seq<set<T>>, sets: seq<set<T>>,
                               commands: seq<(nat, T)>, placed: seq<set<T>>)
    requires |sets| == |reach| + 1 && forall i, x | 0 <= i < |reach| :: x in sets[i] <==> Only(reach, x, i)
    requires forall x :: x in sets[|reach|] <==> Twice(reach, x)
    requires |placed| == |sets| && forall i | 0 <= i < |sets| :: placed[i] <= sets[i]
    requires forall c | c in commands :: Found(placed, c.0, c.1)
    requires Complete(g, serial, Nothing(|sets|), placed)
    requires forall i, y | 0 <= i < |placed| && y in placed[i] :: Sent(g, serial, commands, y)
    ensures forall i, y | 0 <= i < |sets| :: y in placed[i] <==> y in sets[i] && Sent(g, serial, commands, y)
    ensures forall y | Sent(g, serial, commands, y) :: exists i | 0 <= i < |sets| :: y in placed[i]
  {
    hide Complete, Found, Sent;
    forall y | Sent(g, serial, commands, y) ensures exists i | 0 <= i < |placed| :: y in placed[i] {
      SentPlaced(g, serial, commands, placed, y);
    }
    forall i, y | 0 <= i < |sets| && y in sets[i] && Sent(g, serial, commands, y) ensures y in placed[i] {
      var j :| 0 <= j < |placed| && y in placed[j];
      assert y in sets[j];
    }
  }

  /** Every command is among what its group reaches. */
  lemma OwnReached<T(!new)>(g: Graph<T>, commands: seq<(nat, T)>, reach: seq<set<T>>, n: nat)
    requires |reach| == n && forall i, y | 0 <= i < n :: y in reach[i] <==> Needs(g, commands, i, y)
    requires forall c | c in commands :: c.0 < n
    ensures forall c | c in commands :: c.0 < |reach| && c.1 in reach[c.0]
  {
    forall c | c in commands ensures c.1 in reach[c.0] {
      var k :| 0 <= k < |commands| && commands[k] == c;
      ReachesSelf(g, c.1);
      assert Needs(g, commands, c.0, c.1);
    }
  }

  /** The placement of every command. */
  method PlaceAll<T(==, !new)>(g: Graph<T>, ghost rank: T -> nat, serial: set<T>, reach: seq<set<T>>, sets: seq<set<T>>,
                               commands: seq<(nat, T)>) returns (placed: seq<set<T>>)
    requires Ranked(g, rank) && forall i | 0 <= i < |reach| :: Closed(g, reach[i])
    requires |sets| == |reach| + 1 && forall i, x | 0 <= i < |reach| :: x in sets[i] <==> Only(reach, x, i)
    requires forall x :: x in sets[|reach|] <==> Twice(reach, x)
    requires forall c | c in commands :: c.0 < |reach| && c.1 in reach[c.0]
    ensures |placed| == |sets| && forall i | 0 <= i < |sets| :: placed[i] <= sets[i]
    ensures forall c | c in commands :: Found(placed, c.0, c.1)
    ensures Complete(g, serial, Nothing(|sets|), placed)
    ensures forall i, y | 0 <= i < |placed| && y in placed[i] :: Sent(g, serial, commands, y)
  {
    placed := Nothing(|sets|);
    for k := 0 to |commands|
      invariant |placed| == |sets| && forall i | 0 <= i < |sets| :: placed[i] <= sets[i]
      invariant forall j | 0 <= j < k :: Found(placed, commands[j].0, commands[j].1)
      invariant Complete(g, serial, Nothing(|sets|), placed)
      invariant forall i, y | 0 <= i < |placed| && y in placed[i] :: Sent(g, serial, commands, y)
    {
      hide Only, Twice, Closed, Ranked, Reaches;
      var (group, x) := commands[k];
      assert commands[k] in commands;
      ghost var mid := placed;
      placed := Place(g, rank, serial, reach, sets, placed, group, x);
      StaysComplete(g, serial, Nothing(|sets|), mid, placed);
    }
  }

  function Nothing<T>(n: nat): seq<set<T>> {
    seq(n, _ => {})
  }

  /** Group `i` needs `y` and no other does. */
  ghost predicate Alone<T(!new)>(g: Graph<T>, commands: seq<(nat, T)>, n: nat, i: nat, y: T) {
    Needs(g, commands, i, y) && forall j | 0 <= j < n && Needs(g, commands, j, y) :: j == i
  }

  lemma SharedMeans<T(!new)>(g: Graph<T>, commands: seq<(nat, T)>, reach: seq<set<T>>, n: nat)
    requires |reach| == n && forall i, y | 0 <= i < n :: y in reach[i] <==> Needs(g, commands, i, y)
    ensures forall i, y | 0 <= i < n :: Only(reach, y, i) <==> Alone(g, commands, n, i, y)
    ensures forall y :: Twice(reach, y) <==> exists i, j | 0 <= i < j < n ::
              Needs(g, commands, i, y) && Needs(g, commands, j, y)
  {
    forall y
      ensures Twice(reach, y) <==> exists i, j | 0 <= i < j < n :: Needs(g, commands, i, y) && Needs(g, commands, j, y)
    {
      if i, j :| 0 <= i < j < n && Needs(g, commands, i, y) && Needs(g, commands, j, y) {
        assert y in reach[i] && y in reach[j];
      }
    }
  }
}
