/**
  The framebuffer presenter. It sends a band of changed rows, remembers what it sent, and
  keeps the display equal to the whole frame across mode changes, failures and hand-overs.
 */
module Presenter {
  import opened Options
  import opened Wire

  datatype Mode = Mode(width: nat, height: nat, stride: nat, offset: nat)

  function RowBytes(m: Mode): nat { m.width * 4 }

  // ---- rows of a flat buffer -----------------------------------------------------------------

  /** Where row `y` begins. */
  function Start(row: nat, y: nat): nat {
    y * row
  }

  lemma StartNext(row: nat, y: nat)
    ensures Start(row, y + 1) == Start(row, y) + row && Start(row, 0) == 0
  {
  }

  lemma StartsInOrder(row: nat, y: nat, z: nat)
    requires y <= z
    ensures Start(row, y) <= Start(row, z)
  {
    assert (z - y) * row >= 0;
  }

  function Row(s: Bytes, row: nat, rows: nat, y: nat): Bytes
    requires |s| == Start(row, rows) && y < rows
  {
    StartsInOrder(row, y, y + 1);
    StartsInOrder(row, y + 1, rows);
    s[Start(row, y)..Start(row, y + 1)]
  }

  predicate Differs(a: Bytes, b: Bytes, row: nat, rows: nat, y: nat)
    requires |a| == |b| == Start(row, rows) && y < rows
  {
    Row(a, row, rows, y) != Row(b, row, rows, y)
  }

  lemma NothingDiffers(a: Bytes, b: Bytes, row: nat, rows: nat)
    requires |b| == Start(row, rows)
    ensures a == b ==> forall y | 0 <= y < rows :: !Differs(a, b, row, rows, y)
    ensures row == 0 ==> b == []
  {
  }

  lemma {:induction false} SamePrefix(a: Bytes, b: Bytes, row: nat, rows: nat, n: nat)
    requires |a| == |b| == Start(row, rows) && n <= rows
    requires forall y | 0 <= y < n :: !Differs(a, b, row, rows, y)
    ensures Start(row, n) <= |a| && a[..Start(row, n)] == b[..Start(row, n)]
  {
    hide Start;
    StartNext(row, 0);
    StartsInOrder(row, n, rows);
    if n > 0 {
      SamePrefix(a, b, row, rows, n - 1);
      assert !Differs(a, b, row, rows, n - 1);
      StartsInOrder(row, n - 1, n);
      var p, q := Start(row, n - 1), Start(row, n);
      assert a[..q] == a[..p] + a[p..q] && b[..q] == b[..p] + b[p..q];
    }
  }

  lemma {:induction false} SameSuffix(a: Bytes, b: Bytes, row: nat, rows: nat, n: nat)
    requires |a| == |b| == Start(row, rows) && n <= rows
    requires forall y | n <= y < rows :: !Differs(a, b, row, rows, y)
    ensures Start(row, n) <= |a| && a[Start(row, n)..] == b[Start(row, n)..]
    decreases rows - n
  {
    hide Start;
    if n < rows {
      SameSuffix(a, b, row, rows, n + 1);
      assert !Differs(a, b, row, rows, n);
      StartsInOrder(row, n, n + 1);
      var p, q := Start(row, n), Start(row, n + 1);
      assert a[p..] == a[p..q] + a[q..] && b[p..] == b[p..q] + b[q..];
    }
  }

  /** The band is none exactly when no row differs, and otherwise runs from the first row that does to the
      last. */
  predicate Minimal(a: Bytes, b: Bytes, row: nat, rows: nat, band: Option<(nat, nat)>) {
    && |a| == |b| == Start(row, rows)
    && if band.None? then forall y | 0 <= y < rows :: !Differs(a, b, row, rows, y)
       else
         var (first, last) := band.value;
         && first <= last < rows && Differs(a, b, row, rows, first) && Differs(a, b, row, rows, last)
         && forall y | 0 <= y < rows && Differs(a, b, row, rows, y) :: first <= y <= last
  }

  /** Replacing a band that holds every difference makes the buffers equal. */
  lemma BandMakesWhole(a: Bytes, b: Bytes, row: nat, rows: nat, first: nat, last: nat)
    requires Minimal(a, b, row, rows, Some((first, last)))
    ensures Start(row, first) <= Start(row, last + 1) <= |a|
    ensures a[..Start(row, first)] + b[Start(row, first)..Start(row, last + 1)] + a[Start(row, last + 1)..] == b
  {
    hide Start;
    SamePrefix(a, b, row, rows, first);
    SameSuffix(a, b, row, rows, last + 1);
    StartsInOrder(row, first, last + 1);
    var p, q := Start(row, first), Start(row, last + 1);
    assert b == b[..p] + b[p..q] + b[q..];
  }

  /** The band from the first row that differs to the last; everything if the sizes differ. */
  method ChangedRows(sent: Bytes, next: Bytes, row: nat, rows: nat) returns (band: Option<(nat, nat)>)
    requires |next| == Start(row, rows)
    ensures next == [] ==> band.None?
    ensures band.Some? ==> sent != next
    ensures next != [] && |sent| != |next| ==> band == Some((0, rows - 1))
    ensures |sent| == |next| ==> Minimal(sent, next, row, rows, band)
    ensures band.Some? ==> band.value.0 <= band.value.1 < rows
  {
    hide Start, Row, Differs;
    StartNext(row, 0);
    if row == 0 || next == [] {
      NothingDiffers(sent, next, row, rows);
      return None;
    }
    if |sent| != |next| { return Some((0, rows - 1)); }
    var first := 0;
    while first < rows && !Differs(sent, next, row, rows, first)
      invariant first <= rows && forall y | 0 <= y < first :: !Differs(sent, next, row, rows, y)
    {
      first := first + 1;
    }
    if first == rows { return None; }
    var last := rows - 1;
    while !Differs(sent, next, row, rows, last)
      invariant first <= last < rows && forall y | last < y < rows :: !Differs(sent, next, row, rows, y)
      decreases last
    {
      last := last - 1;
    }
    NothingDiffers(sent, next, row, rows);
    band := Some((first, last));
  }

  // ---- the picture -------------------------------------------------------------------------------

  /** Row `y` of the frame with every pixel opaque, if the device can read it. */
  function Visible(vram: Bytes, m: Mode, y: nat): Option<Bytes> {
    var at := m.offset + y * m.stride;
    if at + RowBytes(m) > |vram| then None
    else Some(seq(RowBytes(m), x requires 0 <= x < RowBytes(m) => if x % 4 == 3 then 0xff else vram[at + x]))
  }

  /** The first `n` rows, one after another. */
  function Picture(vram: Bytes, m: Mode, n: nat): (r: Option<Bytes>)
    ensures r.Some? ==> |r.value| == Start(RowBytes(m), n)
  {
    if n == 0 then Some([])
    else
      var above :- Picture(vram, m, n - 1);
      var line :- Visible(vram, m, n - 1);
      StartNext(RowBytes(m), n - 1);
      Some(above + line)
  }

  /** What went to the display in one update: the first row, and whole rows from there on. */
  datatype Send = Send(first: nat, rows: Bytes)

  class Display {
    var width: nat
    var height: nat
    var pixels: Bytes
    ghost var sends: seq<Send>

    ghost predicate Valid()
      reads this
    {
      |pixels| == Start(width * 4, height)
    }

    /** Fails and changes nothing, or resizes to whatever `blank` shows. */
    method SetResolution(w: nat, h: nat, works: bool, blank: Bytes) returns (ok: bool)
      requires |blank| == Start(w * 4, h)
      modifies this
      ensures ok == works && sends == old(sends)
      ensures ok ==> width == w && height == h && pixels == blank
      ensures !ok ==> width == old(width) && height == old(height) && pixels == old(pixels)
    {
      ok := works;
      if ok { width, height, pixels := w, h, blank; }
    }

    /** Fails and changes nothing, or replaces whole rows from `y` on. */
    method UpdateScanout(y: nat, band: Bytes, works: bool) returns (ok: bool)
      requires Valid() && Start(width * 4, y) + |band| <= |pixels|
      modifies `pixels, `sends
      ensures ok == works && |pixels| == |old(pixels)|
      ensures sends == old(sends) + if ok then [Send(y, band)] else []
      ensures var at := Start(width * 4, y);
              pixels == if ok then old(pixels)[..at] + band + old(pixels)[at + |band|..] else old(pixels)
    {
      ok := works;
      if ok {
        var at := Start(width * 4, y);
        pixels := pixels[..at] + band + pixels[at + |band|..];
        sends := sends + [Send(y, band)];
      }
    }
  }

  /** What an update with this band sends of the rows `next`. */
  function Sends(next: Bytes, row: nat, band: Option<(nat, nat)>): seq<Send>
    requires band.Some? ==> Start(row, band.value.0) <= Start(row, band.value.1 + 1) <= |next|
  {
    if band.None? then []
    else [Send(band.value.0, next[Start(row, band.value.0)..Start(row, band.value.1 + 1)])]
  }

  /** A new mode of another size makes the presenter resize the display. */
  predicate Resized(mode: Option<Mode>, width: nat, height: nat, m: Mode) {
    mode != Some(m) && (width != m.width || height != m.height)
  }

  class Frame {
    var mode: Option<Mode>
    var sent: Bytes
    var next: Bytes

    constructor ()
      ensures mode == None && sent == [] && next == []
    {
      mode, sent, next := None, [], [];
    }

    /** What was sent in the current mode is what the display shows. */
    ghost predicate Synced(d: Display)
      reads this, d
    {
      && d.Valid()
      && (mode.Some? ==> && d.width == mode.value.width && d.height == mode.value.height
                         && (sent != [] ==> sent == d.pixels))
    }

    /** A new mode: the display takes its size, and nothing counts as sent. */
    method Adopt(d: Display, m: Mode, works: bool, blank: Bytes) returns (ok: bool)
      requires Synced(d) && |blank| == Start(RowBytes(m), m.height)
      modifies this, d
      ensures Synced(d) && (ok ==> mode == Some(m))
      ensures !ok ==> mode == old(mode) && sent == old(sent) && d.width == old(d.width) && d.height == old(d.height)
      ensures ok && old(mode) == Some(m) ==> sent == old(sent)
      ensures ok <==> (Resized(old(mode), old(d.width), old(d.height), m) ==> works)
      ensures d.sends == old(d.sends)
      ensures d.pixels == if Resized(old(mode), old(d.width), old(d.height), m) && works then blank else old(d.pixels)
      ensures ok && old(mode) != Some(m) ==> sent == []
    {
      if mode != Some(m) {
        if d.width != m.width || d.height != m.height {
          ok := d.SetResolution(m.width, m.height, works, blank);
          if !ok { return; }
        }
        mode := Some(m);
        sent := [];
      }
      ok := true;
    }

    /** Reads every visible row; a failed read leaves `next` half written. */
    method ReadRows(m: Mode, vram: Bytes) returns (ok: bool)
      requires m.width > 0
      modifies `next
      ensures ok == Picture(vram, m, m.height).Some?
      ensures ok ==> next == Picture(vram, m, m.height).value
    {
      next := [];
      for y := 0 to m.height
        invariant Picture(vram, m, y) == Some(next)
      {
        var line := Visible(vram, m, y);
        if line.None? {
          Unreadable(vram, m, y, m.height);
          return false;
        }
        next := next + line.value;
      }
      ok := true;
    }

    /** One frame. When it succeeds the display shows every visible row of `vram`, although only
        the rows of `band` went out: from the first row that differs from what is shown to the last, or
        all of them if nothing counts as sent yet. It succeeds exactly when the resize it may need
        works, every row can be read, and the update works if there is something to send. However it
        fails, what was sent still is what is shown; a resize that fails leaves mode and size as they
        were, and any other failure in a new mode leaves it adopted with nothing sent. */
    method Present(d: Display, m: Mode, vram: Bytes, resizes: bool, blank: Bytes, updates: bool)
      returns (ok: bool, band: Option<(nat, nat)>)
      requires Synced(d) && m.width > 0 && |blank| == Start(RowBytes(m), m.height)
      modifies this, d
      ensures Synced(d)
      ensures ok ==> mode == Some(m) && Some(d.pixels) == Picture(vram, m, m.height)
      ensures ok && band.Some? ==>
                Start(RowBytes(m), band.value.0) <= Start(RowBytes(m), band.value.1 + 1) <= |d.pixels|
      ensures d.sends == old(d.sends) + if ok then Sends(d.pixels, RowBytes(m), band) else []
      ensures ok && old(mode) == Some(m) && old(sent) != [] ==>
                Minimal(old(d.pixels), d.pixels, RowBytes(m), m.height, band)
      ensures ok && !(old(mode) == Some(m) && old(sent) != []) ==>
                band == if d.pixels == [] then None else Some((0, m.height - 1))
      ensures ok && band.None? && old(mode) == Some(m) ==> d.pixels == old(d.pixels)
      ensures if ok then d.pixels != [] ==> sent == d.pixels
              else if old(mode) == Some(m) || (Resized(old(mode), old(d.width), old(d.height), m) && !resizes)
              then mode == old(mode) && sent == old(sent) && d.width == old(d.width) && d.height == old(d.height)
              else mode == Some(m) && sent == []
      ensures !ok ==> d.pixels == if Resized(old(mode), old(d.width), old(d.height), m) && resizes then blank
                                  else old(d.pixels)
      ensures ok <==> && (Resized(old(mode), old(d.width), old(d.height), m) ==> resizes)
                      && Picture(vram, m, m.height).Some? && (band.Some? ==> updates)
      ensures band.Some? ==> old(mode) != Some(m) || Some(old(sent)) != Picture(vram, m, m.height)
    {
      hide Start, Row, Differs, Picture, Minimal, Sends;
      band := None;
      ok := Adopt(d, m, resizes, blank);
      if !ok { return; }
      ok := ReadRows(m, vram);
      if !ok { return; }
      ok, band := Update(d, m, updates);
    }

    /** Sends the rows of `next` that are not shown yet. */
    method Update(d: Display, m: Mode, updates: bool) returns (ok: bool, band: Option<(nat, nat)>)
      requires Synced(d) && mode == Some(m) && |next| == Start(RowBytes(m), m.height)
      modifies `sent, `next, d`pixels, d`sends
      ensures Synced(d) && (ok <==> (band.Some? ==> updates))
      ensures ok ==> d.pixels == old(next) && (d.pixels != [] ==> sent == d.pixels)
      ensures !ok ==> d.pixels == old(d.pixels) && sent == old(sent)
      ensures ok && band.Some? ==>
                Start(RowBytes(m), band.value.0) <= Start(RowBytes(m), band.value.1 + 1) <= |d.pixels|
      ensures d.sends == old(d.sends) + if ok then Sends(d.pixels, RowBytes(m), band) else []
      ensures if old(sent) != [] then Minimal(old(d.pixels), old(next), RowBytes(m), m.height, band)
              else band == if old(next) == [] then None else Some((0, m.height - 1))
      ensures band.Some? ==> old(sent) != old(next)
      ensures band.None? ==> d.pixels == old(d.pixels)
    {
      hide Start, Row, Differs, Minimal;
      var row := RowBytes(m);
      ok := true;
      band := ChangedRows(sent, next, row, m.height);
      if band.None? {
        Unchanged(sent, next, d.pixels, row, m.height);
        return;
      }
      var (first, last) := band.value;
      BandShows(sent, next, d.pixels, row, m.height, first, last);
      ok := d.UpdateScanout(first, next[Start(row, first)..Start(row, last + 1)], updates);
      if !ok { return; }
      sent, next := next, sent;
    }

    /** virtio-gpu has the display: it may show anything, and the next frame starts over. */
    method HandOver(d: Display, width: nat, height: nat, pixels: Bytes)
      requires |pixels| == Start(width * 4, height)
      modifies this, d
      ensures Synced(d) && mode == None && d.width == width && d.height == height
      ensures d.pixels == pixels && d.sends == old(d.sends)
    {
      d.width, d.height, d.pixels := width, height, pixels;
      mode := None;
    }
  }

  /** A pass of the presenter's loop: virtio-gpu holds the display, no mode is set, or a frame with
      what the device and the display will do. */
  datatype Pass =
    | Bound(width: nat, height: nat, pixels: Bytes)
    | Idle
    | Show(mode: Mode, vram: Bytes, resizes: bool, blank: Bytes, updates: bool)

  predicate PassOk(p: Pass) {
    match p
    case Bound(w, h, pixels) => |pixels| == Start(w * 4, h)
    case Idle => true
    case Show(m, _, _, blank, _) => m.width > 0 && |blank| == Start(RowBytes(m), m.height)
  }

  /** Every row can be read, and the display does what it is asked. */
  predicate Works(p: Pass) {
    p.Show? ==> p.resizes && p.updates && Picture(p.vram, p.mode, p.mode.height).Some?
  }

  /** What came of a pass: whether it worked, the rows its frame sent, and the display afterwards. */
  datatype Outcome = Outcome(ok: bool, band: Option<(nat, nat)>, shown: Bytes)

  /** The display as pass `i` finds it. */
  function Before(start: Bytes, outs: seq<Outcome>, i: nat): Bytes
    requires i <= |outs|
  {
    if i == 0 then start else outs[i - 1].shown
  }

  /** What decides the next band: the mode, whether a picture of it was sent, and the display's size. */
  datatype Kept = Kept(mode: Option<Mode>, sent: bool, width: nat, height: nat)

  function After(k: Kept, p: Pass, ok: bool): Kept {
    match p
    case Bound(w, h, _) => Kept(None, false, w, h)
    case Idle => k
    case Show(m, _, resizes, _, _) =>
      if ok then Kept(Some(m), m.height > 0, m.width, m.height)
      else if k.mode == Some(m) || (Resized(k.mode, k.width, k.height, m) && !resizes) then k
      else Kept(Some(m), false, m.width, m.height)
  }

  /** What is kept when pass `i` begins. */
  function KeptAt(first: Kept, passes: seq<Pass>, outs: seq<Outcome>, i: nat): Kept
    requires i <= |passes| && i <= |outs|
  {
    if i == 0 then first else After(KeptAt(first, passes, outs, i - 1), passes[i - 1], outs[i - 1].ok)
  }

  /** A picture of the pass's mode was sent and is still shown. */
  predicate Known(k: Kept, p: Pass) {
    p.Show? && k.sent && k.mode == Some(p.mode)
  }

  /** The band is rows of what is shown. */
  predicate BandFits(m: Mode, o: Outcome) {
    o.band.Some? ==> Start(RowBytes(m), o.band.value.0) <= Start(RowBytes(m), o.band.value.1 + 1) <= |o.shown|
  }

  /** One pass. A frame succeeds exactly when the resize it may need works, its rows can be read and its
      band can be sent. Then the display is the whole picture, and the band is the minimal one if the
      frame before is known to be shown, and the whole picture otherwise. A frame that fails leaves the
      display as it was, or as the resize left it. */
  ghost predicate PassMeans(p: Pass, k: Kept, before: Bytes, o: Outcome) {
    match p
    case Bound(_, _, pixels) => o.shown == pixels
    case Idle => o.shown == before
    case Show(m, vram, resizes, blank, updates) =>
      var resized := Resized(k.mode, k.width, k.height, m);
      && (o.ok <==> (resized ==> resizes) && Picture(vram, m, m.height).Some? && (o.band.Some? ==> updates))
      && if o.ok
         then && Some(o.shown) == Picture(vram, m, m.height) && BandFits(m, o)
              && if Known(k, p) then Minimal(before, o.shown, RowBytes(m), m.height, o.band)
                 else o.band == if o.shown == [] then None else Some((0, m.height - 1))
         else o.shown == if resized && resizes then blank else before
  }

  /** What a pass sends: the band of a frame that succeeded, and nothing else. */
  function SentBy(p: Pass, o: Outcome): seq<Send> {
    if p.Show? && o.ok && BandFits(p.mode, o) then Sends(o.shown, RowBytes(p.mode), o.band) else []
  }

  ghost predicate Keeps(frame: Frame, d: Display, k: Kept)
    reads frame, d
  {
    && frame.mode == k.mode && d.width == k.width && d.height == k.height
    && (k.mode.Some? ==> (k.sent <==> frame.sent != []))
  }

  method OnePass(frame: Frame, d: Display, p: Pass, ghost k: Kept) returns (o: Outcome)
    requires frame.Synced(d) && PassOk(p) && Keeps(frame, d, k)
    modifies frame, d
    ensures frame.Synced(d) && (Works(p) ==> o.ok) && Keeps(frame, d, After(k, p, o.ok))
    ensures o.shown == d.pixels && d.sends == old(d.sends) + SentBy(p, o)
    ensures PassMeans(p, k, old(d.pixels), o)
  {
    hide Picture, Start, Minimal, Differs;
    var ok, band := true, None;
    match p {
      case Bound(w, h, pixels) => frame.HandOver(d, w, h, pixels);
      case Idle =>
      case Show(m, vram, resizes, blank, updates) =>
        ok, band := frame.Present(d, m, vram, resizes, blank, updates);
        Tall(m, vram);
        NoRows(RowBytes(m));
    }
    o := Outcome(ok, band, d.pixels);
  }

  lemma NoRows(row: nat)
    ensures Start(row, 0) == 0
  {
  }

  lemma Tall(m: Mode, vram: Bytes)
    requires m.width > 0
    ensures m.height > 0 && Picture(vram, m, m.height).Some? ==> Picture(vram, m, m.height).value != []
  {
    hide Picture;
    if m.height > 0 {
      StartsInOrder(RowBytes(m), 1, m.height);
      assert Start(RowBytes(m), 1) == RowBytes(m);
    }
  }

  /** Any run of passes. After every frame that succeeded the display is the whole picture, and a frame
      succeeds whenever its reads and the display's calls do. What went out for it is one band: the
      minimal one if the mode's last picture is still shown, all rows if not; no other pass
      sends anything. */
  method Run(d: Display, passes: seq<Pass>) returns (outs: seq<Outcome>)
    requires d.Valid() && forall p | p in passes :: PassOk(p)
    modifies d
    ensures |outs| == |passes|
    ensures var first := Kept(None, false, old(d.width), old(d.height));
            forall i | 0 <= i < |passes| :: PassAt(first, old(d.pixels), passes, outs, i)
    ensures forall i | 0 <= i < |passes| :: Works(passes[i]) ==> outs[i].ok
    ensures d.pixels == Before(old(d.pixels), outs, |outs|) && d.sends == old(d.sends) + AllSent(passes, outs)
  {
    hide PassAt, Works, PassOk, KeptAt, Start, SentBy;
    ghost var first := Kept(None, false, d.width, d.height);
    var frame := new Frame();
    outs := [];
    NothingKept(first, passes);
    for i := 0 to |passes|
      invariant fresh(frame) && frame.Synced(d) && |outs| == i && Keeps(frame, d, KeptAt(first, passes, outs, i))
      invariant forall j | 0 <= j < i :: PassAt(first, old(d.pixels), passes, outs, j)
      invariant forall j | 0 <= j < i :: Works(passes[j]) ==> outs[j].ok
      invariant d.pixels == Before(old(d.pixels), outs, i) && d.sends == old(d.sends) + AllSent(passes, outs)
    {
      assert passes[i] in passes;
      var o := OnePass(frame, d, passes[i], KeptAt(first, passes, outs, i));
      OneMore(first, old(d.pixels), passes, outs, o);
      outs := outs + [o];
    }
  }

  /** `PassMeans` of pass `i` in a run. */
  ghost predicate PassAt(first: Kept, start: Bytes, passes: seq<Pass>, outs: seq<Outcome>, i: nat)
    requires i < |outs| <= |passes|
  {
    PassMeans(passes[i], KeptAt(first, passes, outs, i), Before(start, outs, i), outs[i])
  }

  lemma NothingKept(first: Kept, passes: seq<Pass>)
    ensures KeptAt(first, passes, [], 0) == first && AllSent(passes, []) == []
  {
  }

  lemma OneMore(first: Kept, start: Bytes, passes: seq<Pass>, outs: seq<Outcome>, o: Outcome)
    requires |outs| < |passes| && forall j | 0 <= j < |outs| :: PassAt(first, start, passes, outs, j)
    requires var i := |outs|; PassMeans(passes[i], KeptAt(first, passes, outs, i), Before(start, outs, i), o)
    ensures var i, more := |outs|, outs + [o];
            && KeptAt(first, passes, more, i + 1) == After(KeptAt(first, passes, outs, i), passes[i], o.ok)
            && AllSent(passes, more) == AllSent(passes, outs) + SentBy(passes[i], o)
            && forall j | 0 <= j <= i :: PassAt(first, start, passes, more, j)
  {
    hide PassMeans, After, SentBy;
    var more := outs + [o];
    assert more[..|outs|] == outs;
    KeptEarlier(first, passes, outs, more, |outs|);
    assert KeptAt(first, passes, more, |outs| + 1) ==
             After(KeptAt(first, passes, more, |outs|), passes[|outs|], more[|outs|].ok);
    forall j | 0 <= j <= |outs| ensures PassAt(first, start, passes, more, j) {
      KeptEarlier(first, passes, outs, more, j);
      assert j < |outs| ==> PassAt(first, start, passes, outs, j);
    }
  }

  lemma {:induction false} KeptEarlier(first: Kept, passes: seq<Pass>, outs: seq<Outcome>, more: seq<Outcome>, i: nat)
    requires i <= |passes| && i <= |outs| && outs <= more
    ensures KeptAt(first, passes, more, i) == KeptAt(first, passes, outs, i)
  {
    if i > 0 {
      KeptEarlier(first, passes, outs, more, i - 1);
    }
  }

  /** What a run sends, pass after pass. */
  function AllSent(passes: seq<Pass>, outs: seq<Outcome>): seq<Send>
    requires |outs| <= |passes|
  {
    if outs == [] then []
    else AllSent(passes, outs[..|outs| - 1]) + SentBy(passes[|outs| - 1], outs[|outs| - 1])
  }

  lemma {:induction false} Unreadable(vram: Bytes, m: Mode, y: nat, n: nat)
    requires y < n && Visible(vram, m, y).None?
    ensures Picture(vram, m, n).None?
    decreases n
  {
    if y < n - 1 {
      Unreadable(vram, m, y, n - 1);
    }
  }

  lemma Slices(s: Bytes, row: nat, rows: nat, first: nat, last: nat)
    requires |s| == Start(row, rows) && first <= last < rows
    ensures 0 <= Start(row, first) <= Start(row, last + 1) <= |s|
  {
    StartsInOrder(row, first, last + 1);
    StartsInOrder(row, last + 1, rows);
  }

  /** No band and nothing to show, or no row that differs: the display already shows the frame. */
  lemma Unchanged(sent: Bytes, next: Bytes, shown: Bytes, row: nat, rows: nat)
    requires |next| == |shown| == Start(row, rows) && (sent != [] ==> sent == shown)
    requires next == [] || (|sent| == |next| && Minimal(sent, next, row, rows, None))
    ensures shown == next
  {
    if next != [] {
      SamePrefix(sent, next, row, rows, rows);
      assert sent[..Start(row, rows)] == sent && next[..Start(row, rows)] == next;
    }
  }

  lemma WholeBand(shown: Bytes, next: Bytes, row: nat, rows: nat)
    requires |next| == |shown| == Start(row, rows) && rows > 0
    ensures shown[..Start(row, 0)] + next[Start(row, 0)..Start(row, rows)] + shown[Start(row, rows)..] == next
  {
    hide Start;
    StartNext(row, 0);
  }

  /** The band sent over what is shown makes it the frame. */
  lemma BandShows(sent: Bytes, next: Bytes, shown: Bytes, row: nat, rows: nat, first: nat, last: nat)
    requires |next| == |shown| == Start(row, rows) && next != [] && (sent != [] ==> sent == shown)
    requires first <= last < rows
    requires if |sent| == |next| then Minimal(sent, next, row, rows, Some((first, last)))
             else first == 0 && last == rows - 1
    ensures var p, q := Start(row, first), Start(row, last + 1);
            p <= q <= |next| && shown[..p] + next[p..q] + shown[p + |next[p..q]|..] == next
  {
    hide Start, Minimal;
    Slices(next, row, rows, first, last);
    var p, q := Start(row, first), Start(row, last + 1);
    assert p + |next[p..q]| == q;
    if |sent| == |next| {
      BandMakesWhole(sent, next, row, rows, first, last);
    } else {
      WholeBand(shown, next, row, rows);
    }
  }
}
