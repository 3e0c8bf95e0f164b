/** The internet checksum of RFC 1071 and the IPv4 datagrams that carry it. */
module Checksum {
  import opened Options
  import opened Wire

  const ONES := 0xffff

  function Concat(parts: seq<Bytes>): Bytes {
    if parts == [] then [] else Concat(parts[..|parts| - 1]) + parts[|parts| - 1]
  }

  /** The 16-bit words of a run added up; an odd last byte counts as the high half of a word. */
  function WordSum(s: Bytes): nat {
    if s == [] then 0
    else if |s| == 1 then 256 * s[0]
    else 256 * s[0] + s[1] + WordSum(s[2..])
  }

  /** The end-around carry. */
  function Fold(sum: nat): nat
    decreases sum
  {
    if sum < 0x1_0000 then sum else Fold(sum % 0x1_0000 + sum / 0x1_0000)
  }

  lemma {:induction false} WordSumConcat(a: Bytes, b: Bytes)
    requires |a| % 2 == 0
    ensures WordSum(a + b) == WordSum(a) + WordSum(b)
  {
    if a == [] {
      assert a + b == b;
    } else {
      WordSumConcat(a[2..], b);
      assert (a + b)[2..] == a[2..] + b;
    }
  }

  lemma LastWord(front: Bytes, high: byte, low: byte)
    requires |front| % 2 == 0
    ensures WordSum(front + [high, low]) == WordSum(front) + (256 * high + low)
    ensures WordSum(front + [high]) == WordSum(front) + 256 * high
  {
    WordSumConcat(front, [high, low]);
    WordSumConcat(front, [high]);
    assert [high, low][2..] == [];
  }

  /** The running sum after some bytes: complete words, and a byte waiting for its partner. */
  ghost predicate Running(s: Bytes, sum: nat, pending: Option<byte>) {
    if |s| % 2 == 0 then pending.None? && sum == WordSum(s)
    else pending == Some(s[|s| - 1]) && sum == WordSum(s[..|s| - 1])
  }

  lemma RunningStep(s: Bytes, b: byte, sum: nat, pending: Option<byte>)
    requires Running(s, sum, pending)
    ensures if pending.None? then Running(s + [b], sum, Some(b))
            else Running(s + [b], sum + (256 * pending.value + b), None)
    ensures WordSum(s) == sum + if pending.None? then 0 else 256 * pending.value
  {
    hide WordSum;
    if pending.None? {
      assert (s + [b])[..|s|] == s;
    } else {
      var front := s[..|s| - 1];
      assert s + [b] == front + [pending.value, b] && s == front + [pending.value];
      LastWord(front, pending.value, b);
    }
  }

  lemma {:induction false} SumGrows(s: Bytes, n: nat)
    requires n <= |s| && n % 2 == 0
    ensures WordSum(s[..n]) <= WordSum(s)
  {
    WordSumConcat(s[..n], s[n..]);
    assert s == s[..n] + s[n..];
  }

  /** One run, byte by byte; `ok` is false once 32 bits no longer hold the sum. */
  method AddRun(ghost before: Bytes, part: Bytes, sum0: nat, pending0: Option<byte>)
    returns (ok: bool, sum: nat, pending: Option<byte>)
    requires Running(before, sum0, pending0) && sum0 < U32
    ensures ok ==> Running(before + part, sum, pending) && sum < U32
    ensures !ok ==> WordSum(before + part) >= U32
  {
    sum, pending := sum0, pending0;
    assert before + part[..0] == before;
    for j := 0 to |part|
      invariant Running(before + part[..j], sum, pending) && sum < U32
    {
      ghost var s := before + part[..j];
      RunningStep(s, part[j], sum, pending);
      assert before + part[..j + 1] == s + [part[j]];
      if pending.None? {
        pending := Some(part[j]);
      } else {
        sum := sum + (256 * pending.value + part[j]);
        pending := None;
        if sum >= U32 {
          assert (before + part)[..|s| + 1] == s + [part[j]];
          SumGrows(before + part, |s| + 1);
          return false, sum, pending;
        }
      }
    }
    assert before + part[..|part|] == before + part;
    ok := true;
  }

  method FoldDown(total: nat) returns (sum: nat)
    ensures sum == Fold(total)
  {
    sum := total;
    while sum / 0x1_0000 != 0
      invariant Fold(sum) == Fold(total)
      decreases sum
    {
      sum := sum % 0x1_0000 + sum / 0x1_0000;
    }
  }

  /** Runs are summed as one, whatever the split. The sum is kept in 32 bits: `None` stands for
      the overflow, which happens exactly when the whole sum does not fit. */
  method Compute(parts: seq<Bytes>) returns (r: Option<nat>)
    ensures var all := WordSum(Concat(parts));
            r == if all < U32 then Some(ONES - Fold(all)) else None
  {
    hide WordSum, Fold;
    var sum: nat, pending: Option<byte> := 0, None;
    var ok := true;
    NothingSummed();
    for i := 0 to |parts|
      invariant Running(Concat(parts[..i]), sum, pending) && sum < U32
    {
      assert parts[..i + 1][..i] == parts[..i];
      ok, sum, pending := AddRun(Concat(parts[..i]), parts[i], sum, pending);
      if !ok {
        ghost var done := Concat(parts[..i + 1]);
        PrefixConcat(parts, i + 1);
        PrefixSum(Concat(parts), |done|);
        return None;
      }
    }
    assert parts[..|parts|] == parts;
    RunningStep(Concat(parts), 0, sum, pending);
    if pending.Some? {
      sum := sum + 256 * pending.value;
      if sum >= U32 { return None; }
    }
    FoldMeans(sum);
    var folded := FoldDown(sum);
    r := Some(ONES - folded);
  }

  lemma NothingSummed()
    ensures Running([], 0, None)
  {
  }

  lemma PrefixSum(s: Bytes, n: nat)
    requires n <= |s|
    ensures WordSum(s[..n]) <= WordSum(s)
  {
    hide WordSum;
    if n % 2 == 0 {
      SumGrows(s, n);
    } else if n < |s| {
      SumGrows(s, n + 1);
      var front := s[..n - 1];
      LastWord(front, s[n - 1], s[n]);
      assert s[..n] == front + [s[n - 1]] && s[..n + 1] == front + [s[n - 1], s[n]];
    } else {
      assert s[..n] == s;
    }
  }

  lemma {:induction false} PrefixConcat(parts: seq<Bytes>, n: nat)
    requires n <= |parts|
    ensures |Concat(parts[..n])| <= |Concat(parts)| && Concat(parts)[..|Concat(parts[..n])|] == Concat(parts[..n])
    decreases |parts| - n
  {
    if n == |parts| {
      assert parts[..n] == parts;
    } else {
      PrefixConcat(parts, n + 1);
      assert parts[..n + 1][..n] == parts[..n];
      var a, b := Concat(parts[..n]), Concat(parts[..n + 1]);
      assert b[..|a|] == a;
      assert Concat(parts)[..|b|][..|a|] == Concat(parts)[..|a|];
    }
  }

  // ---- the exact overflow bound ------------------------------------------------------------------

  lemma {:induction false} SumBound(s: Bytes)
    ensures WordSum(s) <= ((|s| + 1) / 2) * ONES
  {
    if |s| > 1 {
      SumBound(s[2..]);
    }
  }

  lemma {:induction false} SumOfOnes(words: nat)
    ensures WordSum(seq(2 * words, _ => 255)) == words * ONES
  {
    var s := seq(2 * words, _ => 255);
    if words > 0 {
      assert s[2..] == seq(2 * (words - 1), _ => 255);
      SumOfOnes(words - 1);
    }
  }

  /** No input of up to 131074 bytes overflows; of every greater length some input does. */
  lemma OverflowBound(n: nat)
    ensures n <= 131074 <==> forall s: Bytes | |s| == n :: WordSum(s) < U32
  {
    if n <= 131074 {
      forall s: Bytes | |s| == n ensures WordSum(s) < U32 { SumBound(s); }
    } else {
      var words := n / 2;
      var s := seq(2 * words, _ => 255) + if n % 2 == 0 then [] else [255];
      SumOfOnes(words);
      WordSumConcat(seq(2 * words, _ => 255), if n % 2 == 0 then [] else [255]);
      assert |s| == n && WordSum(s) >= U32;
    }
  }

  // ---- what the fold computes -----------------------------------------------------------------------

  /** The fold is the remainder modulo 65535, with 65535 itself for a non-zero multiple. */
  lemma {:induction false} FoldMeans(x: nat)
    ensures Fold(x) == if x == 0 then 0 else if x % ONES == 0 then ONES else x % ONES
  {
    if x >= 0x1_0000 {
      var q, r := x / 0x1_0000, x % 0x1_0000;
      FoldMeans(r + q);
      assert x == (r + q) + q * ONES;
      ModShift(r + q, q);
    } else if x < ONES {
      assert x % ONES == x;
    }
  }

  lemma ModShift(a: nat, q: nat)
    ensures (a + q * ONES) % ONES == a % ONES
  {
    var k := a / ONES;
    assert a + q * ONES == (k + q) * ONES + a % ONES;
  }

  predicate Verifies(s: Bytes) {
    Fold(WordSum(s)) == ONES
  }

  function Complement(s: Bytes): (c: nat)
    ensures c <= ONES
  {
    FoldMeans(WordSum(s));
    ONES - Fold(WordSum(s))
  }

  function Put16(s: Bytes, at: nat, w: nat): Bytes
    requires at + 1 < |s| && w <= ONES
  {
    s[at := w / 256][at + 1 := w % 256]
  }

  lemma {:induction false} PutSum(s: Bytes, at: nat, w: nat)
    requires at % 2 == 0 && at + 1 < |s| && w <= ONES && s[at] == 0 && s[at + 1] == 0
    ensures WordSum(Put16(s, at, w)) == WordSum(s) + w
  {
    var t := Put16(s, at, w);
    if at == 0 {
      assert t[2..] == s[2..];
    } else {
      PutSum(s[2..], at - 2, w);
      assert t[2..] == Put16(s[2..], at - 2, w);
    }
  }

  /** Filling an aligned empty field with the checksum makes the whole verify. */
  lemma Completes(s: Bytes, at: nat)
    requires at % 2 == 0 && at + 1 < |s| && s[at] == 0 && s[at + 1] == 0
    ensures Verifies(Put16(s, at, Complement(s)))
  {
    var x := WordSum(s);
    PutSum(s, at, Complement(s));
    FoldMeans(x);
    FoldMeans(x + Complement(s));
    var k := x / ONES;
    assert x == k * ONES + x % ONES;
    if x % ONES == 0 && x > 0 {
      assert x + Complement(s) == 0 + k * ONES;
      ModShift(0, k);
    } else {
      assert x + Complement(s) == 0 + (k + 1) * ONES;
      ModShift(0, k + 1);
    }
  }

  // ---- datagrams ---------------------------------------------------------------------------------------

  type Address = s: Bytes | |s| == 4 witness [0, 0, 0, 0]

  function Header(protocol: byte, src: Address, dst: Address, total: nat): Bytes {
    [0x45, 0, total / 256 % 256, total % 256, 0, 0, 0, 0, 64, protocol, 0, 0] + src + dst
  }

  function Pseudo(protocol: byte, src: Address, dst: Address, length: nat): Bytes {
    src + dst + [0, protocol, length / 256 % 256, length % 256]
  }

  /** Where the transport checksum goes, if it is filled in. */
  function Field(fix: bool, protocol: byte, payload: Bytes): Option<nat> {
    if fix && protocol == 6 && |payload| >= 20 then Some(16)
    else if fix && protocol == 17 && |payload| >= 8 then Some(6)
    else None
  }

  const MAX_FRAME_LEN := 1514

  function Cut(data: Bytes): (r: Bytes)
    ensures |r| <= MAX_FRAME_LEN && r <= data
  {
    data[..if |data| < MAX_FRAME_LEN then |data| else MAX_FRAME_LEN]
  }

  /** The payload as sent: its checksum field, if filled in, over the pseudo-header and itself. */
  function Body(fix: bool, protocol: byte, src: Address, dst: Address, payload: Bytes): Bytes {
    var field := Field(fix, protocol, payload);
    if field.None? then payload
    else
      var blank := Put16(payload, field.value, 0);
      Put16(blank, field.value, Complement(Pseudo(protocol, src, dst, |payload|) + blank))
  }

  /** The checksum of runs too short to overflow. */
  method Sum(parts: seq<Bytes>, ghost whole: Bytes) returns (c: nat)
    requires Concat(parts) == whole && |whole| <= 131074
    ensures c == Complement(whole)
  {
    SumBound(whole);
    var r := Compute(parts);
    FoldMeans(WordSum(whole));
    c := r.value;
  }

  method Store(buffer: array<byte>, at: nat, bytes: Bytes)
    requires at + |bytes| <= buffer.Length
    modifies buffer
    ensures buffer[..at] == old(buffer[..at]) && buffer[at..at + |bytes|] == bytes
    ensures buffer[at + |bytes|..] == old(buffer[at + |bytes|..])
    ensures forall i | 0 <= i < buffer.Length ::
              buffer[i] == if at <= i < at + |bytes| then bytes[i - at] else old(buffer[i])
  {
    forall i | 0 <= i < |bytes| {
      buffer[at + i] := bytes[i];
    }
  }

  /** Version, length, lifetime, protocol and addresses into a blank buffer. */
  method WriteHeader(d: array<byte>, protocol: byte, src: Address, dst: Address, total: nat)
    requires d.Length == total >= 20 && forall i | 0 <= i < total :: d[i] == 0
    modifies d
    ensures d[..20] == Header(protocol, src, dst, total)
  {
    Store(d, 0, [0x45]);
    Store(d, 2, [total / 256 % 256, total % 256]);
    Store(d, 8, [64, protocol]);
    Store(d, 12, src);
    Store(d, 16, dst);
    var header := Header(protocol, src, dst, total);
    assert forall i | 0 <= i < 12 :: d[i] == header[i];
    assert forall i | 12 <= i < 20 :: d[i] == header[i];
  }

  /** The header checksum, over the header while its field is zero. */
  method FillHeader(d: array<byte>, ghost header: Bytes)
    requires d.Length >= 20 && |header| == 20 && d[..20] == header && header[10] == header[11] == 0
    modifies d
    ensures d[..] == Put16(header, 10, Complement(header)) + old(d[20..])
    ensures Verifies(d[..20])
  {
    assert [header][..0] == [] && Concat([header]) == [] + header;
    hide Complement, WordSum, Fold;
    var sum := Sum([d[..20]], header);
    Store(d, 10, [sum / 256, sum % 256]);
    Completes(header, 10);
    assert d[..20] == Put16(header, 10, sum);
    assert d[20..] == d[12..][8..] && old(d[20..]) == old(d[12..])[8..];
    assert d[..] == d[..20] + d[20..];
  }

  /** The transport checksum, over the pseudo-header and the payload with its field cleared. */
  method FillTransport(d: array<byte>, pseudo: Bytes, payload: Bytes, at: nat)
    requires d.Length == 20 + |payload| && d[20..] == payload && |pseudo| == 12
    requires at % 2 == 0 && at + 1 < |payload| <= MAX_FRAME_LEN
    modifies d
    ensures var blank := Put16(payload, at, 0);
            d[..] == old(d[..20]) + Put16(blank, at, Complement(pseudo + blank))
    ensures Verifies(pseudo + d[20..])
  {
    ghost var first, blank := d[..20], Put16(payload, at, 0);
    Store(d, 20 + at, [0, 0]);
    assert d[20..] == blank;
    assert [pseudo, blank][..1] == [pseudo] && [pseudo][..0] == [];
    assert Concat([pseudo]) == [] + pseudo;
    assert Concat([pseudo, blank]) == Concat([pseudo]) + blank;
    var sum := Sum([pseudo, d[20..]], pseudo + blank);
    Store(d, 20 + at, [sum / 256, sum % 256]);
    Completes(pseudo + blank, 12 + at);
    assert Put16(pseudo + blank, 12 + at, sum) == pseudo + Put16(blank, at, sum);
    assert d[20..] == Put16(blank, at, sum) && d[..20] == first;
  }

  /** A datagram whose header checksum verifies and, where one was asked for and there is room,
      whose transport checksum verifies over the pseudo-header. Nothing else differs from the
      plain header and the payload, cut to the frame limit. */
  method Datagram(protocol: byte, src: Address, dst: Address, data: Bytes, fix: bool) returns (d: array<byte>)
    ensures var payload := Cut(data);
            var header, body := Header(protocol, src, dst, 20 + |payload|), Body(fix, protocol, src, dst, payload);
            && d[..] == Put16(header, 10, Complement(header)) + body
            && Verifies(d[..20])
            && (Field(fix, protocol, payload).Some? ==> Verifies(Pseudo(protocol, src, dst, |payload|) + d[20..]))
  {
    hide Complement, Verifies, WordSum, Fold;
    var payload := Cut(data);
    var total := 20 + |payload|;
    d := new byte[total](_ => 0);
    WriteHeader(d, protocol, src, dst, total);
    ghost var header := Header(protocol, src, dst, total);
    FillHeader(d, header);
    ghost var first := d[..20];
    Store(d, 20, payload);
    assert d[..20] == first && d[20..] == payload;
    var field := Field(fix, protocol, payload);
    if field.Some? {
      FillTransport(d, Pseudo(protocol, src, dst, |payload|), payload, field.value);
      assert d[20..] == Body(fix, protocol, src, dst, payload) && d[..20] == first;
    }
    assert d[..] == d[..20] + d[20..];
  }
}
