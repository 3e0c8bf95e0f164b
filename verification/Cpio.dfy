/**
  The newc cpio archives: the Rust writers append to one buffer and pad by its length, the
  Python writer pads each entry by its own; a reader recovers the entries from either.
 */
module Cpio {
  import opened Options
  import opened Wire

  datatype Entry = Entry(inode: nat, mode: nat, rdevMajor: nat, rdevMinor: nat, name: Bytes, data: Bytes)

  const HEADER: nat := 110
  const MAGIC: Bytes := [0x30, 0x37, 0x30, 0x37, 0x30, 0x31]
  const TRAILER: Bytes := [0x54, 0x52, 0x41, 0x49, 0x4c, 0x45, 0x52, 0x21, 0x21, 0x21]

  /** What the format can hold. */
  predicate EntryOk(e: Entry) {
    && e.inode < U32 && e.mode < U32 && e.rdevMajor < U32 && e.rdevMinor < U32
    && |e.data| < U32 && |e.name| + 1 < U32 && 0 !in e.name
  }

  // ---- hexadecimal fields ---------------------------------------------------------------------

  function Digit(d: nat, upper: bool): byte
    requires d < 16
  {
    if d < 10 then 0x30 + d else if upper then 0x41 + d - 10 else 0x61 + d - 10
  }

  function DigitOf(b: byte): Option<nat> {
    if 0x30 <= b <= 0x39 then Some(b - 0x30)
    else if 0x41 <= b <= 0x46 then Some(b - 0x41 + 10)
    else if 0x61 <= b <= 0x66 then Some(b - 0x61 + 10)
    else None
  }

  function Pow16(w: nat): nat { if w == 0 then 1 else 16 * Pow16(w - 1) }

  function Hex(n: nat, w: nat, upper: bool): (r: Bytes)
    ensures |r| == w
  {
    if w == 0 then [] else Hex(n / 16, w - 1, upper) + [Digit(n % 16, upper)]
  }

  function Unhex(s: Bytes): Option<nat> {
    if s == [] then Some(0)
    else
      var high :- Unhex(s[..|s| - 1]);
      var low :- DigitOf(s[|s| - 1]);
      Some(16 * high + low)
  }

  lemma {:induction false} UnhexHex(n: nat, w: nat, upper: bool)
    requires n < Pow16(w)
    ensures Unhex(Hex(n, w, upper)) == Some(n)
  {
    if w > 0 {
      UnhexHex(n / 16, w - 1, upper);
      assert Hex(n, w, upper)[..w - 1] == Hex(n / 16, w - 1, upper);
    }
  }

  lemma Pow16Of8()
    ensures Pow16(8) == U32
  {
    assert Pow16(4) == 0x1_0000;
    assert Pow16(6) == 0x100_0000;
  }

  function Fields(vs: seq<nat>, upper: bool): (r: Bytes)
    ensures |r| == 8 * |vs|
  {
    if vs == [] then [] else Fields(vs[..|vs| - 1], upper) + Hex(vs[|vs| - 1], 8, upper)
  }

  lemma {:induction false} FieldAt(vs: seq<nat>, upper: bool, k: nat)
    requires k < |vs| && vs[k] < U32
    ensures Unhex(Fields(vs, upper)[8 * k..8 * k + 8]) == Some(vs[k])
  {
    var n := |vs| - 1;
    if k == n {
      Pow16Of8();
      UnhexHex(vs[k], 8, upper);
      assert Fields(vs, upper)[8 * k..8 * k + 8] == Hex(vs[k], 8, upper);
    } else {
      FieldAt(vs[..n], upper, k);
      assert Fields(vs, upper)[8 * k..8 * k + 8] == Fields(vs[..n], upper)[8 * k..8 * k + 8];
    }
  }

  /** The header's numbers; a length keeps its low 32 bits. */
  function Values(e: Entry): seq<nat> {
    [e.inode, e.mode, 0, 0, 1, 0, |e.data| % U32, 0, 0, e.rdevMajor, e.rdevMinor, (|e.name| + 1) % U32, 0]
  }

  /** The Rust writers give every entry inode 1 and no device. */
  function Entries(files: seq<(Bytes, Bytes, nat)>): (r: seq<Entry>)
    ensures |r| == |files|
  {
    seq(|files|, i requires 0 <= i < |files| => Entry(1, files[i].2, 0, 0, files[i].0, files[i].1))
  }

  // ---- padding -----------------------------------------------------------------------------------

  function Align(n: nat): (a: nat)
    ensures a % 4 == 0 && n <= a < n + 4
  {
    n + Padding(n)
  }

  /** Header and name, with its terminator. */
  function Head(vs: seq<nat>, name: Bytes, upper: bool): (r: Bytes)
    ensures |r| == 6 + 8 * |vs| + |name| + 1
  {
    MAGIC + Fields(vs, upper) + name + [0]
  }

  /** The bytes of an entry: header and name, then data, each padded to four. */
  function EntryBytes(e: Entry, upper: bool): Bytes {
    Pad(Head(Values(e), e.name, upper)) + Pad(e.data)
  }

  lemma PaddedShape(s: Bytes)
    ensures |Pad(s)| == Align(|s|) && Pad(s)[..|s|] == s
  {
  }

  lemma AlignTail(a: nat, n: nat)
    requires a % 4 == 0
    ensures Align(a + n) == a + Align(n)
  {
  }

  lemma PaddedTail(before: Bytes, s: Bytes)
    requires |before| % 4 == 0
    ensures Pad(before + s) == before + Pad(s)
  {
  }

  lemma Aligned(a: nat, s: Bytes)
    requires a % 4 == 0
    ensures (a + |Pad(s)|) % 4 == 0
  {
    PaddedShape(s);
  }

  lemma PaddedTwice(start: Bytes, head: Bytes, data: Bytes)
    requires |start| % 4 == 0
    ensures var out := Pad(Pad(start + head) + data);
            out == start + (Pad(head) + Pad(data)) && |out| % 4 == 0
  {
    hide Pad, Align;
    PaddedTail(start, head);
    Aligned(|start|, head);
    var padded := start + Pad(head);
    PaddedTail(padded, data);
    Aligned(|padded|, data);
    assert padded + Pad(data) == start + (Pad(head) + Pad(data));
  }

  /** The buffer the Rust writers append to. */
  class Archive {
    var out: Bytes

    constructor ()
      ensures out == []
    {
      out := [];
    }

    /** Zeros until the whole buffer is aligned. */
    method Pad4()
      modifies this
      ensures out == Pad(old(out))
    {
      while |out| % 4 != 0
        invariant old(|out|) <= |out| <= Align(old(|out|))
        invariant out == old(out) + seq(|out| - old(|out|), _ => 0)
        decreases Align(old(|out|)) - |out|
      {
        out := out + [0];
      }
    }

    method WriteEntry(name: Bytes, data: Bytes, mode: nat)
      requires |out| % 4 == 0
      modifies this
      ensures |out| % 4 == 0 && out == old(out) + EntryBytes(Entry(1, mode, 0, 0, name, data), true)
    {
      hide Fields, Hex, Pad, Align, MAGIC;
      var nameZ := name + [0];
      var values := [1, mode, 0, 0, 1, 0, |data| % U32, 0, 0, 0, 0, |nameZ| % U32, 0];
      ghost var start, head := out, Head(values, name, true);
      WriteHeader(values);
      out := out + nameZ;
      assert out == start + head;
      Pad4();
      out := out + data;
      Pad4();
      PaddedTwice(start, head, data);
    }

    method WriteHeader(values: seq<nat>)
      modifies this
      ensures out == old(out) + MAGIC + Fields(values, true)
    {
      ghost var start := out + MAGIC;
      out := out + MAGIC;
      for i := 0 to |values|
        invariant out == start + Fields(values[..i], true)
      {
        assert values[..i + 1][..i] == values[..i];
        out := out + Hex(values[i], 8, true);
      }
      assert values[..|values|] == values;
    }

    /** A whole archive: the entries one after another, then the trailer. A reader gets back the entries,
        up to one that is named like the trailer. */
    method WriteAll(files: seq<(Bytes, Bytes, nat)>)
      requires out == []
      modifies this
      ensures out == Written(Entries(files), true)
      ensures (forall e | e in Entries(files) :: EntryOk(e)) ==> ReadArchive(out) == Some(UpTo(Entries(files)))
    {
      hide EntryBytes;
      for i := 0 to |files|
        invariant |out| % 4 == 0
        invariant out + Written(Entries(files)[i..], true) == Written(Entries(files), true)
      {
        var (name, data, mode) := files[i];
        ghost var before, e := out, Entries(files)[i];
        WriteEntry(name, data, mode);
        assert Entries(files)[i..][1..] == Entries(files)[i + 1..];
        assert out + Written(Entries(files)[i + 1..], true) ==
                 before + (EntryBytes(e, true) + Written(Entries(files)[i + 1..], true));
      }
      assert Entries(files)[|files|..] == [];
      WriteTrailer();
      if forall e | e in Entries(files) :: EntryOk(e) {
        ArchiveTrip(Entries(files), true);
      }
    }

    method WriteTrailer()
      requires |out| % 4 == 0
      modifies this
      ensures |out| % 4 == 0 && out == old(out) + EntryBytes(Entry(1, 0, 0, 0, TRAILER, []), true)
    {
      WriteEntry(TRAILER, [], 0);
    }
  }

  // ---- the reader -------------------------------------------------------------------------------------

  function FieldOf(s: Bytes, k: nat): Option<nat>
    requires k < 13 && |s| >= HEADER
  {
    Unhex(s[6 + 8 * k..14 + 8 * k])
  }

  /** One entry and what follows it, offsets counted from an aligned start. */
  function ReadEntry(s: Bytes): Read<Entry> {
    if |s| < HEADER || s[..6] != MAGIC then None
    else
      var inode :- FieldOf(s, 0);
      var mode :- FieldOf(s, 1);
      var size :- FieldOf(s, 6);
      var major :- FieldOf(s, 9);
      var minor :- FieldOf(s, 10);
      var nameSize :- FieldOf(s, 11);
      var nameEnd := HEADER + nameSize;
      var dataAt := Align(nameEnd);
      var end := Align(dataAt + size);
      if nameSize == 0 || |s| < end || s[nameEnd - 1] != 0 then None
      else Some((Entry(inode, mode, major, minor, s[HEADER..nameEnd - 1], s[dataAt..dataAt + size]), s[end..]))
  }

  /** Entries up to the trailer. */
  function ReadArchive(s: Bytes): Option<seq<Entry>>
    decreases |s|
  {
    var (e, rest) :- ReadEntry(s);
    if e.name == TRAILER then Some([])
    else if |rest| >= |s| then None
    else
      var more :- ReadArchive(rest);
      Some([e] + more)
  }

  lemma HeaderFields(e: Entry, upper: bool, s: Bytes, k: nat)
    requires EntryOk(e) && |s| >= HEADER && k < 13
    requires s[..HEADER] == MAGIC + Fields(Values(e), upper)
    ensures FieldOf(s, k) == Some(Values(e)[k])
  {
    var vs := Values(e);
    assert vs[k] < U32;
    FieldAt(vs, upper, k);
    hide EntryOk, Values, Unhex, Fields;
    var fields, at := Fields(vs, upper), 8 * k;
    assert s[6 + at..14 + at] == s[..HEADER][6 + at..14 + at];
    assert (MAGIC + fields)[6 + at..14 + at] == fields[at..at + 8];
  }

  /** The reader finds header and name at the front. */
  lemma HeadTrip(e: Entry, upper: bool, tail: Bytes)
    requires EntryOk(e)
    ensures var s, nameEnd := Pad(Head(Values(e), e.name, upper)) + tail, HEADER + |e.name| + 1;
            && |s| == Align(nameEnd) + |tail|
            && s[..6] == MAGIC && s[HEADER..nameEnd - 1] == e.name && s[nameEnd - 1] == 0 && s[Align(nameEnd)..] == tail
            && forall k: nat | k < 13 :: FieldOf(s, k) == Some(Values(e)[k])
  {
    hide Unhex;
    var head := Head(Values(e), e.name, upper);
    var s := Pad(head) + tail;
    assert s[..|head|] == head;
    assert s[..HEADER] == head[..HEADER] == MAGIC + Fields(Values(e), upper);
    forall k: nat | k < 13 ensures FieldOf(s, k) == Some(Values(e)[k]) { HeaderFields(e, upper, s, k); }
    assert s[..6] == s[..HEADER][..6];
    assert head[HEADER..|head| - 1] == e.name;
    assert s[HEADER..|head| - 1] == head[HEADER..|head| - 1];
  }

  lemma HeaderValues(s: Bytes, e: Entry)
    requires EntryOk(e) && |s| >= HEADER
    requires forall k: nat | k < 13 :: FieldOf(s, k) == Some(Values(e)[k])
    ensures FieldOf(s, 0) == Some(e.inode) && FieldOf(s, 1) == Some(e.mode) && FieldOf(s, 6) == Some(|e.data|)
    ensures FieldOf(s, 9) == Some(e.rdevMajor) && FieldOf(s, 10) == Some(e.rdevMinor)
    ensures FieldOf(s, 11) == Some(|e.name| + 1)
  {
    hide FieldOf;
  }

  /** An entry is read wherever its parts are where the reader looks. */
  lemma Assembles(s: Bytes, e: Entry, rest: Bytes)
    requires EntryOk(e) && |s| >= HEADER && s[..6] == MAGIC && |s| >= HEADER + |e.name| + 1
    requires forall k: nat | k < 13 :: FieldOf(s, k) == Some(Values(e)[k])
    requires s[HEADER..HEADER + |e.name|] == e.name && s[HEADER + |e.name|] == 0
    requires var dataAt := Align(HEADER + |e.name| + 1);
             var end := Align(dataAt + |e.data|);
             |s| >= end && s[dataAt..dataAt + |e.data|] == e.data && s[end..] == rest
    ensures ReadEntry(s) == Some((e, rest))
  {
    HeaderValues(s, e);
    hide FieldOf, Align, EntryOk, Values;
  }

  /** What either writer wrote, the reader reads. */
  lemma EntryTrip(e: Entry, upper: bool, rest: Bytes)
    requires EntryOk(e)
    ensures ReadEntry(EntryBytes(e, upper) + rest) == Some((e, rest))
    ensures |EntryBytes(e, upper)| > 0
  {
    hide ReadEntry, FieldOf, Head, Fields, Values, Pad, Align;
    PaddedShape(e.data);
    var tail := Pad(e.data) + rest;
    var s := EntryBytes(e, upper) + rest;
    assert s == Pad(Head(Values(e), e.name, upper)) + tail;
    HeadTrip(e, upper, tail);
    var dataAt := Align(HEADER + |e.name| + 1);
    AlignTail(dataAt, |e.data|);
    assert s[dataAt..dataAt + |e.data|] == s[dataAt..][..|e.data|] == Pad(e.data)[..|e.data|];
    assert s[dataAt + |Pad(e.data)|..] == s[dataAt..][|Pad(e.data)|..];
    Assembles(s, e, rest);
  }

  function Written(entries: seq<Entry>, upper: bool): Bytes {
    if entries == [] then EntryBytes(Entry(1, 0, 0, 0, TRAILER, []), upper)
    else EntryBytes(entries[0], upper) + Written(entries[1..], upper)
  }

  /** The entries before the first one that is named like the trailer. */
  function UpTo(entries: seq<Entry>): seq<Entry> {
    if entries == [] || entries[0].name == TRAILER then [] else [entries[0]] + UpTo(entries[1..])
  }

  /** A whole archive gives back its entries, in order, up to one that is named like the trailer. */
  lemma {:induction false} ArchiveTrip(entries: seq<Entry>, upper: bool)
    requires forall e | e in entries :: EntryOk(e)
    ensures ReadArchive(Written(entries, upper)) == Some(UpTo(entries))
  {
    hide EntryBytes, ReadEntry;
    if entries == [] {
      var last := Entry(1, 0, 0, 0, TRAILER, []);
      EntryTrip(last, upper, []);
      assert EntryBytes(last, upper) + [] == EntryBytes(last, upper);
    } else {
      assert entries[0] in entries;
      EntryTrip(entries[0], upper, Written(entries[1..], upper));
      ArchiveTrip(entries[1..], upper);
    }
  }

  /** So exactly the archives with no such name give back all their entries. */
  lemma {:induction false} ArchiveExact(entries: seq<Entry>, upper: bool)
    requires forall e | e in entries :: EntryOk(e)
    ensures ReadArchive(Written(entries, upper)) == Some(entries) <==> forall e | e in entries :: e.name != TRAILER
  {
    ArchiveTrip(entries, upper);
    UpToAll(entries);
  }

  lemma {:induction false} UpToAll(entries: seq<Entry>)
    ensures UpTo(entries) == entries <==> forall e | e in entries :: e.name != TRAILER
    ensures |UpTo(entries)| <= |entries|
  {
    if entries != [] {
      UpToAll(entries[1..]);
      assert entries == [entries[0]] + entries[1..];
      if entries[0].name != TRAILER {
        assert UpTo(entries)[1..] == UpTo(entries[1..]);
      }
    }
  }

  /** A file named `TRAILER!!!` hides itself and everything after it. */
  lemma TrailerHides(data: Bytes, later: Entry, upper: bool)
    requires |data| < U32 && EntryOk(later)
    ensures ReadArchive(Written([Entry(1, 0, 0, 0, TRAILER, data), later], upper)) == Some([])
  {
    var es := [Entry(1, 0, 0, 0, TRAILER, data), later];
    assert EntryOk(es[0]);
    ArchiveTrip(es, upper);
  }

  // ---- the Python writer ---------------------------------------------------------------------------------

  /** Padding by the length of the entry so far, and of the contents alone. */
  function PythonEntry(e: Entry): Bytes {
    var beginning := MAGIC + Fields(Values(e), false) + (e.name + [0]);
    beginning + seq((-|beginning|) % 4, _ => 0) + e.data + seq((-|e.data|) % 4, _ => 0)
  }

  lemma PythonHead(e: Entry)
    ensures MAGIC + Fields(Values(e), false) + (e.name + [0]) == Head(Values(e), e.name, false)
  {
  }

  lemma PythonPad(n: int)
    requires n >= 0
    ensures (-n) % 4 == Align(n) - n
  {
  }

  lemma SameLength(e: Entry)
    ensures |EntryBytes(e, false)| == |EntryBytes(e, true)|
  {
    hide Fields;
  }

  /** At any aligned place its names and data land where the Rust writer's do. */
  lemma PythonAgrees(e: Entry, rest: Bytes)
    requires EntryOk(e)
    ensures PythonEntry(e) == EntryBytes(e, false)
    ensures |PythonEntry(e)| == |EntryBytes(e, true)|
    ensures ReadEntry(PythonEntry(e) + rest) == Some((e, rest))
  {
    hide ReadEntry, Fields, MAGIC, Values, Head;
    var head := Head(Values(e), e.name, false);
    PythonHead(e);
    PythonPad(|head|);
    PythonPad(|e.data|);
    SameLength(e);
    EntryTrip(e, false, rest);
  }
}
