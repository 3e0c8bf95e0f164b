/**
  The reordering of structure members that is to put every length before what it sizes, and exactly when it
  does. A length read through a pointer names no member, and its pointer stays where it was; a length
  that is sized itself is moved without its own.
 */
module SortMembers {
  import opened Options
  import Schema

  /** A member and what its lengths are called: `n`, `p->n`, or `p[i].n` for the rows of a two-level
      array. */
  datatype Member = Member(name: string, lens: seq<string>)

  /** What comes before the first `stop`. */
  function Until(s: string, stop: char): (r: string)
    ensures stop !in s ==> r == s
    ensures stop !in r
  {
    if s == "" || s[0] == stop then "" else [s[0]] + Until(s[1..], stop)
  }

  /** The name the reordering looks for: it splits at `[` and at nothing else. */
  function Key(len: string): string {
    Until(len, '[')
  }

  /** The member a length is read from, or through. */
  function Head(len: string): string {
    Until(Key(len), '-')
  }

  /** One of the lengths is, for the reordering, the member `name`. */
  predicate Lists(lens: seq<string>, name: string) {
    exists k | 0 <= k < |lens| :: Key(lens[k]) == name
  }

  predicate Named(s: seq<Member>, name: string) {
    exists k | 0 <= k < |s| :: s[k].name == name
  }

  function Find(s: seq<Member>, name: string): (r: Option<Member>)
    ensures r.Some? <==> Named(s, name)
    ensures r.Some? ==> r.value in s && r.value.name == name
  {
    if s == [] then None
    else if s[0].name == name then Some(s[0])
    else
      assert Named(s[1..], name) ==> Named(s, name);
      assert Named(s, name) ==> exists k | 0 < k < |s| :: s[k].name == name && s[1..][k - 1] == s[k];
      Find(s[1..], name)
  }

  predicate DistinctNames(s: seq<Member>) {
    forall i, j | 0 <= i < j < |s| :: s[i].name != s[j].name
  }

  /** With distinct names, being listed and being named are the same. */
  lemma ListedIffNamed(all: seq<Member>, s: seq<Member>, m: Member)
    requires DistinctNames(all) && (forall x | x in s :: x in all) && m in all
    ensures m in s <==> Named(s, m.name)
  {
    if Named(s, m.name) {
      var k :| 0 <= k < |s| && s[k].name == m.name;
      assert s[k] in all;
    }
  }

  // ---- who is listed when ------------------------------------------------------------------------

  /** `x` is listed before the turn of member `i`: it had its own turn, or was a length of a member that had.
      A member that is listed already has none. */
  ghost predicate Taken(members: seq<Member>, i: nat, x: Member)
    requires i <= |members|
    decreases i, 0
  {
    i > 0 && (Taken(members, i - 1, x) || Takes(members, i - 1, x))
  }

  ghost predicate Takes(members: seq<Member>, i: nat, x: Member)
    requires i < |members|
    decreases i, 1
  {
    !Taken(members, i, members[i]) && (members[i] == x || Lists(members[i].lens, x.name))
  }

  /** `x` is listed before step `l` of the turn of member `i`. */
  ghost predicate Ahead(members: seq<Member>, i: nat, l: nat, x: Member)
    requires i < |members| && l <= |members[i].lens|
  {
    Taken(members, i, x) || Lists(members[i].lens[..l], x.name)
  }

  /** `x` is listed at step `l` of that turn: as the length looked for, or at the end as the member
      itself. */
  ghost predicate Comes(members: seq<Member>, i: nat, l: nat, x: Member) {
    && i < |members| && l <= |members[i].lens| && !Taken(members, i, members[i]) && !Ahead(members, i, l, x)
    && if l < |members[i].lens| then Key(members[i].lens[l]) == x.name else members[i] == x
  }

  lemma {:induction false} TakenStays(members: seq<Member>, i: nat, j: nat, x: Member)
    requires i <= j <= |members| && Taken(members, i, x)
    ensures Taken(members, j, x)
  {
    if i < j {
      TakenStays(members, i, j - 1, x);
    }
  }

  lemma ComesOnce(members: seq<Member>, i: nat, l: nat, j: nat, m: nat, x: Member)
    requires Comes(members, i, l, x) && Comes(members, j, m, x)
    ensures i == j && l == m
  {
    if i < j {
      TakenStays(members, i + 1, j, x);
    } else if j < i {
      TakenStays(members, j + 1, i, x);
    }
  }

  // ---- the order that comes of it ---------------------------------------------------------------------

  /** Exactly these members are listed before step `l` of turn `i`. */
  ghost predicate Preceded(members: seq<Member>, i: nat, l: nat, before: seq<Member>)
    requires i < |members| && l <= |members[i].lens|
  {
    forall x | x in members :: x in before <==> Ahead(members, i, l, x)
  }

  /** Before each member stands what is listed before it. */
  ghost predicate InPlace(members: seq<Member>, s: seq<Member>) {
    forall k, i, l | 0 <= k < |s| && Comes(members, i, l, s[k]) :: Preceded(members, i, l, s[..k])
  }

  ghost predicate Reordered(members: seq<Member>, sorted: seq<Member>) {
    multiset(sorted) == multiset(members) && DistinctNames(sorted) && InPlace(members, sorted)
  }

  /** No member is its own length, unless it is listed before its turn. */
  ghost predicate SelfFree(members: seq<Member>, n: nat)
    requires n <= |members|
  {
    forall i | 0 <= i < n && Lists(members[i].lens, members[i].name) :: Taken(members, i, members[i])
  }

  predicate Repeats(s: seq<Member>) {
    exists a, b | 0 <= a < b < |s| :: s[a] == s[b]
  }

  /** A list under construction: members of `all`, none twice, each in place. */
  ghost predicate Building(all: seq<Member>, s: seq<Member>) {
    DistinctNames(s) && InPlace(all, s)
  }

  lemma Append(members: seq<Member>, s: seq<Member>, i: nat, l: nat, m: Member)
    requires Building(members, s) && !Named(s, m.name) && Comes(members, i, l, m) && Preceded(members, i, l, s)
    ensures Building(members, s + [m])
  {
    hide Preceded, Comes;
    var t := s + [m];
    forall k, j: nat, n: nat | 0 <= k < |t| && Comes(members, j, n, t[k])
      ensures j < |members| && n <= |members[j].lens| && Preceded(members, j, n, t[..k])
    {
      assert j < |members| && n <= |members[j].lens| by { ComesWithin(members, j, n, t[k]); }
      if k < |s| {
        assert t[..k] == s[..k] && s[k] == t[k];
      } else {
        assert t[..k] == s;
        ComesOnce(members, i, l, j, n, m);
      }
    }
    forall a, b | 0 <= a < b < |t| ensures t[a].name != t[b].name {
      assert a < |s| && t[a] == s[a];
    }
  }

  lemma ComesWithin(members: seq<Member>, i: nat, l: nat, x: Member)
    requires Comes(members, i, l, x)
    ensures i < |members| && l <= |members[i].lens|
  {
  }

  lemma AheadMore(members: seq<Member>, i: nat, l: nat, x: Member)
    requires i < |members| && l < |members[i].lens|
    ensures Ahead(members, i, l + 1, x) <==> Ahead(members, i, l, x) || Key(members[i].lens[l]) == x.name
  {
    var lens := members[i].lens;
    assert lens[..l + 1] == lens[..l] + [lens[l]];
    assert lens[..l + 1][l] == lens[l];
    assert forall k | 0 <= k < l :: lens[..l + 1][k] == lens[..l][k];
  }

  /** Step `l` of a turn, given what is found under the name looked for. */
  lemma OneStep(members: seq<Member>, sorted: seq<Member>, i: nat, l: nat, found: Option<Member>)
    requires DistinctNames(members) && i < |members| && l < |members[i].lens| && !Taken(members, i, members[i])
    requires (forall x | x in sorted :: x in members) && Preceded(members, i, l, sorted)
    requires found.Some? <==> Named(members, Key(members[i].lens[l]))
    requires found.Some? ==> found.value in members && found.value.name == Key(members[i].lens[l])
    ensures var more := if found.None? || Named(sorted, found.value.name) then sorted else sorted + [found.value];
            && Preceded(members, i, l + 1, more) && (forall x | x in more :: x in members)
            && (Building(members, sorted) ==> Building(members, more))
  {
    hide Taken, Building, Key;
    var more := if found.None? || Named(sorted, found.value.name) then sorted else sorted + [found.value];
    forall x | x in members ensures x in more <==> Ahead(members, i, l + 1, x) {
      AheadMore(members, i, l, x);
      if x.name == Key(members[i].lens[l]) {
        assert Named(members, x.name) by { var a :| 0 <= a < |members| && members[a] == x; }
        ListedIffNamed(members, [found.value], x);
        assert [found.value][0].name == x.name;
        ListedIffNamed(members, sorted, x);
      }
    }
    if found.Some? && !Named(sorted, found.value.name) {
      ListedIffNamed(members, sorted, found.value);
      if Building(members, sorted) {
        Append(members, sorted, i, l, found.value);
      }
    }
  }

  lemma LastStep(members: seq<Member>, sorted: seq<Member>, i: nat)
    requires DistinctNames(members) && i < |members| && !Taken(members, i, members[i])
    requires (forall x | x in sorted :: x in members) && Preceded(members, i, |members[i].lens|, sorted)
    ensures forall x | x in members :: x in sorted + [members[i]] <==> Taken(members, i + 1, x)
    ensures if Lists(members[i].lens, members[i].name) then Repeats(sorted + [members[i]])
            else Building(members, sorted) ==> Building(members, sorted + [members[i]])
  {
    var v, n := members[i], |members[i].lens|;
    assert v.lens[..n] == v.lens;
    assert forall x :: Taken(members, i + 1, x) <==> Taken(members, i, x) || Takes(members, i, x);
    hide Taken, Building;
    if Lists(v.lens, v.name) {
      assert v in members && Ahead(members, i, n, v);
      var a :| 0 <= a < |sorted| && sorted[a] == v;
      assert (sorted + [v])[a] == (sorted + [v])[|sorted|];
    } else {
      ListedIffNamed(members, sorted, v);
      if Building(members, sorted) {
        Append(members, sorted, i, n, v);
      }
    }
  }

  lemma Skipped(members: seq<Member>, i: nat)
    requires i < |members| && Taken(members, i, members[i])
    ensures forall x :: Taken(members, i + 1, x) <==> Taken(members, i, x)
    ensures SelfFree(members, i + 1) <==> SelfFree(members, i)
  {
  }

  lemma NothingTaken(members: seq<Member>)
    ensures Building(members, []) && SelfFree(members, 0) && forall x :: !Taken(members, 0, x)
  {
  }

  lemma NothingYet(members: seq<Member>, i: nat, sorted: seq<Member>)
    requires i < |members| && forall x | x in members :: x in sorted <==> Taken(members, i, x)
    ensures Preceded(members, i, 0, sorted)
  {
  }

  lemma FreeMore(members: seq<Member>, i: nat)
    requires i < |members| && !Taken(members, i, members[i])
    ensures SelfFree(members, i + 1) <==> SelfFree(members, i) && !Lists(members[i].lens, members[i].name)
  {
  }

  /** The loop of the parser. For distinct names it permutes the members if and only if none is its own
      length, and then what stands before each is said exactly. */
  method Sort(members: seq<Member>) returns (sorted: seq<Member>)
    ensures DistinctNames(members) ==> (multiset(sorted) == multiset(members) <==> SelfFree(members, |members|))
    ensures DistinctNames(members) && SelfFree(members, |members|) ==> Reordered(members, sorted)
  {
    hide Taken, Preceded, Building, SelfFree, Repeats;
    ghost var good := DistinctNames(members);
    sorted := [];
    NothingTaken(members);
    for i := 0 to |members|
      invariant good ==> forall x | x in sorted :: x in members
      invariant good ==> forall x | x in members :: x in sorted <==> Taken(members, i, x)
      invariant good ==> if SelfFree(members, i) then Building(members, sorted) else Repeats(sorted)
    {
      var v := members[i];
      assert v in members;
      if v in sorted {
        if good {
          Skipped(members, i);
        }
        continue;
      }
      if good {
        NothingYet(members, i, sorted);
      }
      for l := 0 to |v.lens|
        invariant good ==> (forall x | x in sorted :: x in members) && Preceded(members, i, l, sorted)
        invariant good ==> if SelfFree(members, i) then Building(members, sorted) else Repeats(sorted)
      {
        var found := Find(members, Key(v.lens[l]));
        if good {
          OneStep(members, sorted, i, l, found);
        }
        if !Named(sorted, Key(v.lens[l])) && found.Some? {
          RepeatsStill(sorted, found.value);
          sorted := sorted + [found.value];
        }
      }
      if good {
        LastStep(members, sorted, i);
        FreeMore(members, i);
      }
      RepeatsStill(sorted, v);
      sorted := sorted + [v];
    }
    if good {
      AllTaken(members, sorted);
    }
  }

  lemma RepeatsStill(s: seq<Member>, m: Member)
    ensures Repeats(s) ==> Repeats(s + [m])
  {
    if a, b :| 0 <= a < b < |s| && s[a] == s[b] {
      assert (s + [m])[a] == (s + [m])[b];
    }
  }

  /** After the last turn everyone is listed, once or not. */
  lemma AllTaken(members: seq<Member>, sorted: seq<Member>)
    requires DistinctNames(members) && forall x | x in sorted :: x in members
    requires forall x | x in members :: x in sorted <==> Taken(members, |members|, x)
    requires if SelfFree(members, |members|) then Building(members, sorted) else Repeats(sorted)
    ensures multiset(sorted) == multiset(members) <==> SelfFree(members, |members|)
    ensures SelfFree(members, |members|) ==> Reordered(members, sorted)
  {
    hide SelfFree;
    forall j | 0 <= j < |members| ensures members[j] in sorted {
      if !Taken(members, j, members[j]) {
        assert Takes(members, j, members[j]) && Taken(members, j + 1, members[j]);
        TakenStays(members, j + 1, |members|, members[j]);
      } else {
        TakenStays(members, j, |members|, members[j]);
      }
      assert members[j] in members;
    }
    if SelfFree(members, |members|) {
      Permuted(sorted, members);
    } else {
      var a, b :| 0 <= a < b < |sorted| && sorted[a] == sorted[b];
      CountsTwice(sorted, a, b);
      CountsOnce(members, sorted[a]);
    }
  }

  lemma CountsTwice(s: seq<Member>, a: nat, b: nat)
    requires a < b < |s| && s[a] == s[b]
    ensures multiset(s)[s[a]] >= 2
  {
    assert s == s[..b] + s[b..];
    assert s[..b][a] == s[a] && s[b..][0] == s[a];
    assert s[a] in multiset(s[..b]) && s[a] in multiset(s[b..]);
  }

  lemma {:induction false} CountsOnce(s: seq<Member>, m: Member)
    requires DistinctNames(s)
    ensures multiset(s)[m] == if m in s then 1 else 0
  {
    if s != [] {
      var front := s[..|s| - 1];
      assert s == front + [s[|s| - 1]];
      CountsOnce(front, m);
    }
  }

  lemma Permuted(a: seq<Member>, b: seq<Member>)
    requires DistinctNames(a) && DistinctNames(b) && (forall m | m in a :: m in b)
    requires forall j | 0 <= j < |b| :: b[j] in a
    ensures multiset(a) == multiset(b)
  {
    forall m: Member
      ensures multiset(a)[m] == multiset(b)[m]
    {
      CountsOnce(a, m);
      CountsOnce(b, m);
    }
  }

  // ---- the structure laid out ---------------------------------------------------------------------

  /** A count of `sized` is read from, or through, the member `head`. */
  predicate ReadFrom(sized: Member, head: Member) {
    exists k | 0 <= k < |sized.lens| :: Head(sized.lens[k]) == head.name
  }

  /** Fields laid out from members in their order, `at` saying which; members such as `sType` and `pNext`
      become no field. A count is read from a member, or through one. */
  predicate LaidOut(members: seq<Member>, fs: seq<Schema.Field>, at: seq<nat>) {
    && |at| == |fs| && (forall k | 0 <= k < |at| :: at[k] < |members|)
    && (forall j, k | 0 <= j < k < |at| :: at[j] < at[k])
    && forall k, c | 0 <= k < |fs| && c in Schema.Counts(fs[k].shape) && !c.Const? ::
         c.field < |fs| && ReadFrom(members[at[k]], members[at[c.field]])
  }

  /** Where the structure is declared: when `sized` is listed, `head` is. */
  ghost predicate InTime(members: seq<Member>, sized: Member, head: Member) {
    forall i, l | Comes(members, i, l, sized) :: Ahead(members, i, l, head)
  }

  lemma {:induction false} Listed(members: seq<Member>, n: nat, x: Member) returns (i: nat, l: nat)
    requires n <= |members| && Taken(members, n, x)
    ensures Comes(members, i, l, x)
  {
    if Taken(members, n - 1, x) {
      i, l := Listed(members, n - 1, x);
    } else {
      i := n - 1;
      l := FirstStep(members, i, x, 0);
    }
  }

  lemma {:induction false} FirstStep(members: seq<Member>, i: nat, x: Member, from: nat) returns (l: nat)
    requires i < |members| && Takes(members, i, x) && from <= |members[i].lens| && !Ahead(members, i, from, x)
    ensures Comes(members, i, l, x)
    decreases |members[i].lens| - from
  {
    l := from;
    if from < |members[i].lens| && Key(members[i].lens[from]) != x.name {
      AheadMore(members, i, from, x);
      l := FirstStep(members, i, x, from + 1);
    } else if from == |members[i].lens| {
      assert members[i].lens[..from] == members[i].lens;
    }
  }

  /** One member stands before another in the new order exactly when it is in time in the old. */
  lemma BeforeIffInTime(members: seq<Member>, sorted: seq<Member>, a: nat, b: nat)
    requires DistinctNames(members) && Reordered(members, sorted) && a < |sorted| && b < |sorted|
    ensures a < b <==> InTime(members, sorted[b], sorted[a])
  {
    var sized, head := sorted[b], sorted[a];
    assert sized in multiset(sorted) && sized in multiset(members);
    assert head in multiset(sorted) && head in multiset(members);
    EveryoneTaken(members, sized);
    var i, l := Listed(members, |members|, sized);
    hide Taken, Comes, Ahead;
    ComesWithin(members, i, l, sized);
    assert Preceded(members, i, l, sorted[..b]);
    forall j, m | Comes(members, j, m, sized) ensures j == i && m == l {
      ComesOnce(members, i, l, j, m, sized);
    }
    assert head in sorted[..b] <==> a < b by {
      if head in sorted[..b] {
        var k :| 0 <= k < b && sorted[..b][k] == head;
        assert sorted[k].name == sorted[a].name;
      }
      if a < b {
        assert sorted[..b][a] == head;
      }
    }
  }

  lemma EveryoneTaken(members: seq<Member>, x: Member)
    requires x in members
    ensures Taken(members, |members|, x)
  {
    var j :| 0 <= j < |members| && members[j] == x;
    if Taken(members, j, x) {
      TakenStays(members, j, |members|, x);
    } else {
      assert Takes(members, j, x) && Taken(members, j + 1, x);
      TakenStays(members, j + 1, |members|, x);
    }
  }

  /** In a structure laid out from reordered members no count reads a field that comes later, if and only if
      what each is read from, or through, is in time where the structure is declared. */
  lemma CountsBound(members: seq<Member>, sorted: seq<Member>, fs: seq<Schema.Field>, at: seq<nat>)
    requires DistinctNames(members) && Reordered(members, sorted) && LaidOut(sorted, fs, at)
    ensures Schema.LengthsFirst(fs) <==>
            forall k, c | 0 <= k < |fs| && c in Schema.Counts(fs[k].shape) && !c.Const? ::
              InTime(members, sorted[at[k]], sorted[at[c.field]])
  {
    hide Reordered, InTime, ReadFrom;
    forall k, c | 0 <= k < |fs| && c in Schema.Counts(fs[k].shape) && !c.Const?
      ensures c.field < k <==> InTime(members, sorted[at[k]], sorted[at[c.field]])
    {
      BeforeIffInTime(members, sorted, at[c.field], at[k]);
      assert at[c.field] < at[k] <==> c.field < k;
    }
  }

  // ---- lengths that are not sized ---------------------------------------------------------------------

  /** No member that is a length has a length itself. */
  predicate FlatLengths(members: seq<Member>) {
    forall i, j | 0 <= i < |members| && 0 <= j < |members| && Lists(members[i].lens, members[j].name) ::
      members[j].lens == []
  }

  /** `x` is declared before place `i`, or is a length of a member that is. */
  predicate Declared(members: seq<Member>, i: nat, x: Member)
    requires i <= |members|
  {
    exists j | 0 <= j < i :: members[j] == x || Lists(members[j].lens, x.name)
  }

  lemma {:induction false} FlatTaken(members: seq<Member>, i: nat, x: Member)
    requires DistinctNames(members) && FlatLengths(members) && i <= |members|
    ensures Taken(members, i, x) <==> Declared(members, i, x)
    decreases i
  {
    if i > 0 {
      var v := members[i - 1];
      FlatTaken(members, i - 1, x);
      FlatTaken(members, i - 1, v);
      if Taken(members, i - 1, v) {
        var j :| 0 <= j < i - 1 && (members[j] == v || Lists(members[j].lens, v.name));
        assert v.lens == [];
      }
    }
  }

  /** Then a length that is a member is always in time, and any other member exactly if it is declared before
      the array, or is a length of the array or of a member declared before it. */
  lemma FlatInTime(members: seq<Member>, i: nat, head: Member)
    requires DistinctNames(members) && FlatLengths(members) && i < |members| && members[i].lens != []
    ensures SelfFree(members, |members|)
    ensures InTime(members, members[i], head) <==> Declared(members, i, head) || Lists(members[i].lens, head.name)
  {
    var sized, n := members[i], |members[i].lens|;
    assert SelfFree(members, |members|);
    FlatTaken(members, i, sized);
    FlatTaken(members, i, head);
    assert !Declared(members, i, sized);
    assert sized.lens[..n] == sized.lens;
    assert Comes(members, i, n, sized);
    hide Taken, Comes, Ahead;
    forall j, l | Comes(members, j, l, sized) ensures j == i && l == n { ComesOnce(members, i, n, j, l, sized); }
    assert Ahead(members, i, n, head) <==> Declared(members, i, head) || Lists(sized.lens, head.name) by {
      AheadMeans(members, i, n, head);
    }
  }

  lemma AheadMeans(members: seq<Member>, i: nat, l: nat, x: Member)
    requires i < |members| && l <= |members[i].lens|
    ensures Ahead(members, i, l, x) <==> Taken(members, i, x) || Lists(members[i].lens[..l], x.name)
  {
  }

  // ---- and when it fails -------------------------------------------------------------------------------

  /** An array counted through a pointer that is declared after it. */
  function LatePointer(): seq<Member> {
    [Member("a", ["p->n"]), Member("p", [])]
  }

  function LateFields(): seq<Schema.Field> {
    [Schema.Field(Schema.Dyn(Schema.Scalar(4, false), Schema.Through(1, 0)), true, None),
     Schema.Field(Schema.Ptr(Schema.Struct(0)), true, None)]
  }

  function OneCount(): Schema.Registry {
    [Schema.StructDef(None, [], [Schema.Field(Schema.Plain(Schema.Scalar(4, false)), true, None)], false)]
  }

  /** The pointer stays there: the names are distinct and no length is sized, every reordering the loop can
      give is the order declared, and the count reads a field that comes later. */
  lemma PointerLate(sorted: seq<Member>)
    requires Reordered(LatePointer(), sorted)
    ensures DistinctNames(LatePointer()) && FlatLengths(LatePointer()) && sorted == LatePointer()
    ensures LaidOut(sorted, LateFields(), [0, 1])
    ensures Schema.FieldsOk(OneCount(), 1, LateFields()) && !Schema.LengthsFirst(LateFields())
  {
    hide *;
    OrderKept(sorted);
    LateCounts();
  }

  lemma LateCounts()
    ensures LaidOut(LatePointer(), LateFields(), [0, 1])
    ensures Schema.FieldsOk(OneCount(), 1, LateFields()) && !Schema.LengthsFirst(LateFields())
  {
    LateFieldsOk();
    OnePath();
    hide ReadFrom, Schema.FieldsOk, LatePointer;
    var fs, c := LateFields(), Schema.Through(1, 0);
    assert Schema.Counts(fs[0].shape) == [c] && Schema.Counts(fs[1].shape) == [];
    assert c in Schema.Counts(fs[0].shape);
  }

  lemma OnePath()
    ensures |LatePointer()| == 2 && ReadFrom(LatePointer()[0], LatePointer()[1])
  {
    ThroughPointer();
    assert Head(LatePointer()[0].lens[0]) == LatePointer()[1].name;
  }

  lemma LateFieldsOk()
    ensures Schema.FieldsOk(OneCount(), 1, LateFields())
  {
    assert Schema.CountOk(OneCount(), LateFields(), Schema.Through(1, 0));
  }

  lemma ThroughPointer()
    ensures Key("p->n") == "p->n" && Head("p->n") == "p" && '-' in "p->n"
  {
    var len := "p->n";
    assert len[1] == '-' && len[1..][0] == '-';
    assert Until(len, '-') == [len[0]] + Until(len[1..], '-');
  }

  lemma OrderKept(sorted: seq<Member>)
    requires Reordered(LatePointer(), sorted)
    ensures DistinctNames(LatePointer()) && FlatLengths(LatePointer()) && sorted == LatePointer()
  {
    var members := LatePointer();
    var sized, pointer := members[0], members[1];
    assert !Lists(sized.lens, "p") && !Lists(sized.lens, "a") by { ThroughPointer(); }
    TwoMembers(sorted, sized, pointer);
    hide Reordered, InTime, Lists;
    FlatInTime(members, 0, pointer);
    BeforeIffInTime(members, sorted, 0, 1);
    assert !Declared(members, 0, pointer);
    assert sorted == [pointer, sized] ==> InTime(members, sized, pointer);
  }

  lemma TwoMembers(sorted: seq<Member>, x: Member, y: Member)
    requires multiset(sorted) == multiset([x, y])
    ensures sorted == [x, y] || sorted == [y, x]
  {
    assert |sorted| == |multiset(sorted)| == 2;
    assert sorted == [sorted[0], sorted[1]];
    assert sorted[0] in multiset(sorted) && sorted[1] in multiset(sorted);
    assert x in multiset(sorted) && y in multiset(sorted);
  }

  /** A length that is sized is moved to the front of its array without its own length. */
  lemma SizedLate()
    ensures var members := [Member("a", ["b"]), Member("b", ["c"]), Member("c", [])];
            DistinctNames(members) && SelfFree(members, 3) && !InTime(members, members[1], members[2])
  {
    var members := [Member("a", ["b"]), Member("b", ["c"]), Member("c", [])];
    assert Key("b") == "b" && Key("c") == "c";
    assert members[0].lens[..0] == [];
    assert Comes(members, 0, 0, members[1]) && !Ahead(members, 0, 0, members[2]);
  }
}
