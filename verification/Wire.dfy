/**
  The byte layer of the Venus protocol: little-endian slots, padded runs and
  NUL-terminated strings. A decoder is a function from the unread bytes to a
  value and what is left; `None` is any refusal.
 */
module Wire {
  import opened Options

  type byte = n: nat | n < 256
  type Bytes = seq<byte>
  type Read<T> = Option<(T, Bytes)>

  /** Elements on this wire are at least this wide (`MIN_ELEMENT_BYTES`). */
  const GRANULE := 4

  const U32: nat := 0x1_0000_0000

  function Base(w: nat): (b: nat)
    ensures b >= 1
  {
    if w == 0 then 1 else 256 * Base(w - 1)
  }

  /** `n` in `w` little-endian bytes. */
  function Le(w: nat, n: nat): (s: Bytes)
    ensures |s| == w
  {
    if w == 0 then [] else [n % 256] + Le(w - 1, n / 256)
  }

  function FromLe(s: Bytes): nat {
    if s == [] then 0 else s[0] + 256 * FromLe(s[1..])
  }

  function Get(w: nat, s: Bytes): (r: Read<nat>)
    ensures r.Some? ==> |r.value.1| == |s| - w
  {
    if |s| < w then None else Some((FromLe(s[..w]), s[w..]))
  }

  /** A scalar of `w` bytes travels in a slot of four, or of eight. */
  function Slot(w: nat): nat {
    if w == 8 then 8 else 4
  }

  function GetScalar(w: nat, s: Bytes): (r: Read<nat>)
    ensures r.Some? ==> |r.value.1| == |s| - Slot(w)
  {
    var (n, rest) :- Get(Slot(w), s);
    Some((n % Base(w), rest))
  }

  function Padding(n: nat): nat {
    (4 - n % 4) % 4
  }

  function Pad(b: Bytes): Bytes {
    b + seq(Padding(|b|), _ => 0 as byte)
  }

  /** `n` bytes of data, the padding after them consumed and not looked at. */
  function GetBlob(n: nat, s: Bytes): (r: Read<Bytes>)
    ensures r.Some? ==> |r.value.0| == n && |r.value.1| == |s| - n - Padding(n)
  {
    if |s| < n + Padding(n) then None else Some((s[..n], s[n + Padding(n)..]))
  }

  /** What C sees of a byte string: everything before its first NUL. */
  function CStr(b: Bytes): Bytes {
    if b == [] || b[0] == 0 then [] else [b[0]] + CStr(b[1..])
  }

  /** `Encoder::opt_string(Some(b))`. */
  function PutString(b: Bytes): Bytes {
    Le(8, |b| + 1) + Pad(b + [0])
  }

  /** `Decoder::string_bytes`: a length of zero or a missing NUL is refused. */
  function GetString(len: nat, s: Bytes): (r: Read<Bytes>)
    ensures r.Some? ==> |r.value.1| <= |s|
  {
    if len == 0 then None else
    var (raw, rest) :- GetBlob(len, s);
    if 0 in raw then Some((CStr(raw), rest)) else None
  }

  // ---- round trips of the primitives ----------------------------------------

  lemma {:induction false} FromLeLe(w: nat, n: nat)
    requires n < Base(w)
    ensures FromLe(Le(w, n)) == n
  {
    if w > 0 {
      FromLeLe(w - 1, n / 256);
      assert Le(w, n)[1..] == Le(w - 1, n / 256);
    }
  }

  lemma GetPut(w: nat, n: nat, rest: Bytes)
    requires n < Base(w)
    ensures Get(w, Le(w, n) + rest) == Some((n, rest))
  {
    FromLeLe(w, n);
    assert (Le(w, n) + rest)[..w] == Le(w, n);
  }

  lemma Bases()
    ensures Base(1) == 0x100 && Base(2) == 0x1_0000
    ensures Base(4) == 0x1_0000_0000 && Base(8) == 0x1_0000_0000_0000_0000
  {
    assert Base(3) == 256 * Base(2);
    assert Base(5) == 256 * Base(4);
    assert Base(6) == 256 * Base(5);
    assert Base(7) == 256 * Base(6);
  }

  lemma GetPutScalar(w: nat, n: nat, rest: Bytes)
    requires w in {1, 2, 4, 8}
    requires n < Base(w)
    ensures GetScalar(w, Le(Slot(w), n) + rest) == Some((n, rest))
  {
    assert n < Base(Slot(w)) by { Bases(); }
    GetPut(Slot(w), n, rest);
    Small(n, Base(w));
  }

  lemma Small(n: nat, m: nat)
    requires n < m
    ensures n % m == n
  {
  }

  lemma GetPutBlob(b: Bytes, rest: Bytes)
    ensures GetBlob(|b|, Pad(b) + rest) == Some((b, rest))
  {
    var s := Pad(b) + rest;
    assert s[..|b|] == b;
    assert s[|b| + Padding(|b|)..] == rest;
  }

  lemma {:induction false} CStrStops(b: Bytes, tail: Bytes)
    ensures CStr(b + [0] + tail) == CStr(b)
    ensures 0 !in CStr(b)
    ensures 0 !in b ==> CStr(b) == b
  {
    var s := b + [0] + tail;
    if b != [] {
      CStrStops(b[1..], tail);
      assert s[1..] == b[1..] + [0] + tail;
    }
  }

  lemma GetPutString(b: Bytes, rest: Bytes)
    ensures GetString(|b| + 1, Pad(b + [0]) + rest) == Some((CStr(b), rest))
  {
    hide GetBlob, Pad, CStr;
    GetPutBlob(b + [0], rest);
    assert (b + [0])[|b|] == 0;
    CStrStops(b, []);
    assert b + [0] + [] == b + [0];
  }
}
