/**
  The verified download cache: assets pinned by digest, streamed to a partial file and renamed
  into place only once the digest matches. The transport is an arbitrary source of bytes and
  any file operation may fail; only the removal of a partial file is taken to work.
 */
module Artifact {
  import opened Options
  import opened Wire

  type Digest = Bytes -> string

  const MAX_ASSET_LEN := 2 * 1024 * 1024 * 1024

  // ---- names ------------------------------------------------------------------------------------

  predicate Safe(c: char) {
    '0' <= c <= '9' || 'A' <= c <= 'Z' || 'a' <= c <= 'z' || c in ".-_"
  }

  function SafeChars(s: string): (r: string)
    ensures |r| == |s| && forall i | 0 <= i < |r| :: Safe(r[i])
  {
    if s == "" then "" else [if Safe(s[0]) then s[0] else '_'] + SafeChars(s[1..])
  }

  /** `replace("..", "__")`, left to right. */
  function NoDotDot(s: string): (r: string)
    ensures |r| == |s|
    ensures forall i | 0 <= i < |r| :: r[i] == s[i] || (s[i] == '.' && r[i] == '_')
    ensures forall i | 0 <= i < |r| - 1 :: !(r[i] == '.' && r[i + 1] == '.')
  {
    if |s| < 2 then s
    else if s[0] == '.' && s[1] == '.' then "__" + NoDotDot(s[2..])
    else
      var rest := NoDotDot(s[1..]);
      assert rest[0] == s[1] || (s[1] == '.' && rest[0] == '_');
      [s[0]] + rest
  }

  /** A name that stays a single component: safe characters only, no `..` and nothing lost in length. */
  function Sanitize(name: string): (r: string)
    ensures |r| == |name| && forall i | 0 <= i < |r| :: Safe(r[i])
    ensures forall i | 0 <= i < |r| - 1 :: !(r[i] == '.' && r[i + 1] == '.')
  {
    NoDotDot(SafeChars(name))
  }

  /** Sanitising twice is sanitising once, so a sanitised name keeps its cache entry. */
  lemma SanitizeAgain(name: string)
    ensures Sanitize(Sanitize(name)) == Sanitize(name)
  {
    var r := Sanitize(name);
    SafeStays(r);
    DotsStay(r);
  }

  lemma {:induction false} SafeStays(s: string)
    requires forall i | 0 <= i < |s| :: Safe(s[i])
    ensures SafeChars(s) == s
  {
    if s != "" {
      SafeStays(s[1..]);
    }
  }

  lemma {:induction false} DotsStay(s: string)
    requires forall i | 0 <= i < |s| - 1 :: !(s[i] == '.' && s[i + 1] == '.')
    ensures NoDotDot(s) == s
  {
    if |s| >= 2 {
      assert !(s[0] == '.' && s[0 + 1] == '.');
      forall i | 0 <= i < |s[1..]| - 1 ensures !(s[1..][i] == '.' && s[1..][i + 1] == '.') {
        assert !(s[i + 1] == '.' && s[i + 1 + 1] == '.');
      }
      DotsStay(s[1..]);
    }
  }

  /** A name that is safe as it stands. */
  predicate Clean(name: string) {
    (forall i | 0 <= i < |name| :: Safe(name[i])) && forall i | 0 <= i < |name| - 1 ::
      !(name[i] == '.' && name[i + 1] == '.')
  }

  /** Exactly the clean names are their own cache entries, so distinct clean names never share one. */
  lemma KeepsClean(a: string, b: string)
    ensures Sanitize(a) == a <==> Clean(a)
    ensures Clean(a) && Clean(b) && Sanitize(a) == Sanitize(b) ==> a == b
  {
    if Clean(a) {
      SafeStays(a);
      DotsStay(a);
    }
    if Clean(b) {
      SafeStays(b);
      DotsStay(b);
    }
  }

  /** A name that is not clean shares its entry with a clean one. */
  lemma UncleanCollides(name: string)
    ensures Clean(Sanitize(name)) && Sanitize(Sanitize(name)) == Sanitize(name)
    ensures !Clean(name) ==> Sanitize(name) != name
  {
    SanitizeAgain(name);
    KeepsClean(name, name);
  }

  function PartPath(path: string): string { path + ".part" }

  function NotePath(path: string): string { path + ".manifest.toml" }

  // ---- what the outside does -------------------------------------------------------------------------

  /** A read: bytes, of which the file takes all or only a prefix before failing; or an error. */
  datatype Chunk = Data(bytes: Bytes, stored: Option<nat>) | Broken

  datatype Download = Download(starts: bool, creates: bool, chunks: seq<Chunk>, flushes: bool, renames: bool)

  datatype Asset = Asset(name: string, bytes: nat, sha256: string)

  type Files = map<string, Bytes>

  function Min(a: nat, b: nat): nat { if a < b then a else b }

  class Disk {
    var files: Files

    method Remove(path: string)
      modifies this
      ensures files == old(files) - {path}
    {
      files := files - {path};
    }
  }

  // ---- one download --------------------------------------------------------------------------------------

  /** What is received after `body`: everything up to the end of the stream or of the chunks, unless a
      read or a write fails or the pinned size is exceeded. */
  function Received(chunks: seq<Chunk>, limit: nat, body: Bytes): Option<Bytes>
    requires |body| <= limit
    decreases |chunks|
  {
    if chunks == [] then Some(body)
    else if chunks[0].Broken? then None
    else
      var bytes := chunks[0].bytes[..Min(|chunks[0].bytes|, limit + 1 - |body|)];
      if bytes == [] then Some(body)
      else if |body| + |bytes| > limit || chunks[0].stored.Some? then None
      else Received(chunks[1..], limit, body + bytes)
  }

  /** Streams at most one byte more than the pinned size and stores at most the pinned size. */
  method Stream(disk: Disk, part: string, chunks: seq<Chunk>, limit: nat) returns (ok: bool, body: Bytes, stored: nat)
    requires part in disk.files && disk.files[part] == []
    modifies disk
    ensures Received(chunks, limit, []) == if ok then Some(body) else None
    ensures part in disk.files && disk.files == old(disk.files)[part := disk.files[part]]
    ensures ok ==> disk.files[part] == body
    ensures |disk.files[part]| == stored <= limit
  {
    ghost var before := disk.files;
    body, stored := [], 0;
    assert chunks[0..] == chunks;
    for i := 0 to |chunks|
      invariant disk.files == before[part := body] && |body| == stored <= limit
      invariant Received(chunks, limit, []) == Received(chunks[i..], limit, body)
    {
      assert chunks[i..][1..] == chunks[i + 1..];
      if chunks[i].Broken? { return false, body, stored; }
      var bytes := chunks[i].bytes[..Min(|chunks[i].bytes|, limit + 1 - |body|)];
      if bytes == [] { return true, body, stored; }
      if |body| + |bytes| > limit { return false, body, stored; }
      var kept := if chunks[i].stored.Some? then bytes[..Min(chunks[i].stored.value, |bytes|)] else bytes;
      disk.files := disk.files[part := body + kept];
      if chunks[i].stored.Some? { return false, body + kept, |body + kept|; }
      body, stored := body + bytes, stored + |bytes|;
    }
    ok := true;
  }

  /** The bytes a download delivers, if every step of it works and they have the pinned digest. */
  function Verified(digest: Digest, asset: Asset, d: Download): Option<Bytes> {
    if !d.starts || !d.creates then None
    else
      var got :- Received(d.chunks, Min(asset.bytes, MAX_ASSET_LEN), []);
      if d.flushes && digest(got) == asset.sha256 && d.renames then Some(got) else None
  }

  /** Succeeds exactly when the download delivers the pinned bytes, which are then at the path. Every way
      out leaves the disk otherwise as it was, without the partial file, and never more than the
      pinned size was stored. */
  method DownloadVerified(disk: Disk, digest: Digest, asset: Asset, path: string, d: Download)
    returns (ok: bool, stored: nat)
    modifies disk
    ensures ok <==> Verified(digest, asset, d).Some?
    ensures stored <= asset.bytes
    ensures !ok ==> disk.files == old(disk.files) - {PartPath(path)}
    ensures ok ==> && disk.files == (old(disk.files) - {PartPath(path)})[path := Verified(digest, asset, d).value]
                   && digest(disk.files[path]) == asset.sha256 && |disk.files[path]| == stored
  {
    var part := PartPath(path);
    assert part != path;
    ghost var clean := disk.files - {part};
    disk.Remove(part);
    if !d.starts || !d.creates { return false, 0; }
    disk.files := disk.files[part := []];
    var body;
    ok, body, stored := Stream(disk, part, d.chunks, Min(asset.bytes, MAX_ASSET_LEN));
    if !ok || !d.flushes || digest(body) != asset.sha256 || !d.renames {
      disk.Remove(part);
      assert disk.files == clean;
      return false, stored;
    }
    disk.files := (disk.files - {part})[path := body];
    assert disk.files == clean[path := body];
  }

  // ---- a whole fetch ------------------------------------------------------------------------------------------

  predicate Matches(files: Files, digest: Digest, asset: Asset, path: string) {
    path in files && digest(files[path]) == asset.sha256
  }

  /** Distinct names, none of them another's partial file or note. */
  predicate Separate(paths: seq<string>) {
    forall i, j | 0 <= i < |paths| && 0 <= j < |paths| ::
      (i != j ==> paths[i] != paths[j]) && paths[i] != PartPath(paths[j]) && paths[i] != NotePath(paths[j])
  }

  lemma SuffixesDiffer(p: string, q: string)
    ensures PartPath(p) != NotePath(q) && p != PartPath(p) && p != NotePath(p)
    ensures (PartPath(p) == PartPath(q) ==> p == q) && (NotePath(p) == NotePath(q) ==> p == q)
  {
    assert PartPath(p)[|PartPath(p)| - 1] == 't' && NotePath(q)[|NotePath(q)| - 1] == 'l';
    if PartPath(p) == PartPath(q) {
      assert p == PartPath(p)[..|p|] && q == PartPath(q)[..|q|];
    }
    if NotePath(p) == NotePath(q) {
      assert p == NotePath(p)[..|p|] && q == NotePath(q)[..|q|];
    }
  }

  function Paths(assets: seq<Asset>): (r: seq<string>)
    ensures |r| == |assets|
  {
    seq(|assets|, i requires 0 <= i < |assets| => Sanitize(assets[i].name))
  }

  predicate Untouched(before: Files, after: Files, path: string) {
    (path in before <==> path in after) && (path in before ==> after[path] == before[path])
  }

  /** `path` holds what it held, or bytes that match the pin. */
  predicate OldOrPinned(before: Files, after: Files, digest: Digest, asset: Asset, path: string) {
    Matches(after, digest, asset, path) || Untouched(before, after, path)
  }

  /** What the outside does for one asset: whether its cached file can be read, its download, and whether
      its note can be written. */
  datatype Luck = Luck(readable: bool, download: Download, note: bool)

  /** Found in the cache with the pinned digest, and not to be fetched anew. */
  predicate Cached(files: Files, digest: Digest, asset: Asset, path: string, refresh: bool, luck: Luck) {
    !refresh && luck.readable && Matches(files, digest, asset, path)
  }

  /** The asset is cached or its download verifies, and the note it then needs can be written. */
  predicate Fetchable(files: Files, digest: Digest, asset: Asset, path: string, refresh: bool, offline: bool,
                      luck: Luck) {
    var cached := Cached(files, digest, asset, path, refresh, luck);
    && (cached || (!offline && Verified(digest, asset, luck.download).Some?))
    && (!cached || NotePath(path) !in files ==> luck.note)
  }

  /** One asset: from the cache, or downloaded, and a note beside it. Only its own three paths change, and
      a download stores no more than the pinned size. */
  method FetchOne(disk: Disk, digest: Digest, asset: Asset, path: string, refresh: bool, offline: bool, luck: Luck)
    returns (ok: bool, downloaded: bool, stored: nat)
    modifies disk
    ensures stored <= asset.bytes && (ok && downloaded ==> path in disk.files && |disk.files[path]| == stored)
    ensures ok <==> Fetchable(old(disk.files), digest, asset, path, refresh, offline, luck)
    ensures downloaded <==> !offline && !Cached(old(disk.files), digest, asset, path, refresh, luck)
    ensures forall q | q !in Own(path) :: Untouched(old(disk.files), disk.files, q)
    ensures OldOrPinned(old(disk.files), disk.files, digest, asset, path)
    ensures ok ==> Matches(disk.files, digest, asset, path) && NotePath(path) in disk.files
    ensures if downloaded then PartPath(path) !in disk.files
            else Untouched(old(disk.files), disk.files, PartPath(path))
  {
    SuffixesDiffer(path, path);
    downloaded, stored := false, 0;
    if !(!refresh && luck.readable && Matches(disk.files, digest, asset, path)) {
      if offline { return false, false, 0; }
      downloaded := true;
      ok, stored := DownloadVerified(disk, digest, asset, path, luck.download);
      if !ok { return; }
    }
    if downloaded || NotePath(path) !in disk.files {
      if !luck.note { return false, downloaded, stored; }
      disk.files := disk.files[NotePath(path) := []];
    }
    ok := true;
  }

  /** Another asset's paths are not touched. */
  lemma Apart(paths: seq<string>, i: nat, j: nat)
    requires Separate(paths) && i < |paths| && j < |paths| && i != j
    ensures forall q | q in Own(paths[j]) :: q !in Own(paths[i])
  {
    SuffixesDiffer(paths[j], paths[i]);
    SuffixesDiffer(paths[i], paths[j]);
  }

  function Own(path: string): set<string> {
    {path, PartPath(path), NotePath(path)}
  }

  /** A path that is none of the assets', nor a partial file or a note of one. */
  predicate Foreign(paths: seq<string>, q: string) {
    forall i | 0 <= i < |paths| :: q !in Own(paths[i])
  }

  predicate AllUntouched(before: Files, after: Files, qs: set<string>) {
    forall q | q in qs :: Untouched(before, after, q)
  }

  /** A partial file is left exactly where one was and nothing was downloaded, and is the same. */
  predicate PartExact(before: Files, after: Files, path: string, fetched: bool) {
    && (PartPath(path) in after <==> PartPath(path) in before && !fetched)
    && (PartPath(path) in after ==> after[PartPath(path)] == before[PartPath(path)])
  }

  /** What every exit leaves of an asset. */
  predicate Kept(before: Files, after: Files, digest: Digest, asset: Asset, path: string, fetched: bool) {
    OldOrPinned(before, after, digest, asset, path) && PartExact(before, after, path, fetched)
  }

  /** An asset is done, matched and noted, or has not been looked at. */
  ghost predicate Stage(before: Files, now: Files, digest: Digest, asset: Asset, path: string, done: bool,
                        fetched: bool) {
    if done
    then && Kept(before, now, digest, asset, path, fetched)
         && Matches(now, digest, asset, path) && NotePath(path) in now
    else AllUntouched(before, now, Own(path)) && !fetched
  }

  lemma StageKept(before: Files, now: Files, digest: Digest, asset: Asset, path: string, done: bool, fetched: bool)
    requires Stage(before, now, digest, asset, path, done, fetched)
    ensures Kept(before, now, digest, asset, path, fetched)
  {
    assert path in Own(path) && PartPath(path) in Own(path);
  }

  /** Work on asset `i` leaves the stage of the others. */
  lemma StageStays(before: Files, mid: Files, now: Files, digest: Digest, asset: Asset, paths: seq<string>, i: nat,
                   j: nat, done: bool, fetched: bool)
    requires Separate(paths) && i < |paths| && j < |paths| && i != j
    requires forall q | q !in Own(paths[i]) :: Untouched(mid, now, q)
    requires Stage(before, mid, digest, asset, paths[j], done, fetched)
    ensures Stage(before, now, digest, asset, paths[j], done, fetched)
  {
    Apart(paths, i, j);
    assert paths[j] in Own(paths[j]) && PartPath(paths[j]) in Own(paths[j]) && NotePath(paths[j]) in Own(paths[j]);
    assert AllUntouched(mid, now, Own(paths[j]));
  }

  /** An asset not looked at before is judged as it was at the start. */
  lemma JudgedAtStart(before: Files, mid: Files, digest: Digest, asset: Asset, path: string, refresh: bool,
                      offline: bool, luck: Luck)
    requires AllUntouched(before, mid, Own(path))
    ensures Cached(mid, digest, asset, path, refresh, luck) == Cached(before, digest, asset, path, refresh, luck)
    ensures Fetchable(mid, digest, asset, path, refresh, offline, luck) ==
              Fetchable(before, digest, asset, path, refresh, offline, luck)
    ensures Fetchable(before, digest, asset, path, refresh, true, luck) ==>
              Cached(before, digest, asset, path, refresh, luck)
    ensures Untouched(before, mid, path) && Untouched(before, mid, PartPath(path))
  {
    assert path in Own(path) && PartPath(path) in Own(path) && NotePath(path) in Own(path);
  }

  /** Every exit leaves each asset its old bytes or bytes that match the pin, a partial file only where one
      was and nothing was downloaded, and all other paths alone. It succeeds exactly when every
      asset is cached or its download verifies and the notes needed can be written; then all
      match, and exactly what was not cached was downloaded. `fetched` has the bytes each download
      stored: never more than the pinned size, and if all went well those of the file. */
  method FetchInto(disk: Disk, digest: Digest, assets: seq<Asset>, refresh: bool, offline: bool, lucks: seq<Luck>)
    returns (ok: bool, fetched: map<nat, nat>)
    requires |lucks| == |assets| && Separate(Paths(assets))
    modifies disk
    ensures forall i | 0 <= i < |assets| ::
              Kept(old(disk.files), disk.files, digest, assets[i], Paths(assets)[i], i in fetched)
    ensures forall q | Foreign(Paths(assets), q) :: Untouched(old(disk.files), disk.files, q)
    ensures ok <==> forall i | 0 <= i < |assets| ::
              Fetchable(old(disk.files), digest, assets[i], Paths(assets)[i], refresh, offline, lucks[i])
    ensures forall i | i in fetched ::
              && i < |assets| && !offline && fetched[i] <= assets[i].bytes
              && !Cached(old(disk.files), digest, assets[i], Paths(assets)[i], refresh, lucks[i])
    ensures ok ==> forall i | 0 <= i < |assets| ::
              && Matches(disk.files, digest, assets[i], Paths(assets)[i]) && NotePath(Paths(assets)[i]) in disk.files
              && (i in fetched <==> !Cached(old(disk.files), digest, assets[i], Paths(assets)[i], refresh, lucks[i]))
    ensures ok ==> forall i | i in fetched :: Holds(disk.files, Paths(assets)[i], fetched[i])
  {
    hide Sanitize, Matches, Own, Fetchable, Cached, OldOrPinned, PartExact, Untouched;
    ghost var before, paths := disk.files, Paths(assets);
    fetched := map[];
    StartsUntouched(before);
    for i := 0 to |assets|
      invariant forall j | 0 <= j < |assets| ::
                  Stage(before, disk.files, digest, assets[j], paths[j], j < i, j in fetched)
      invariant forall q | Foreign(paths, q) :: Untouched(before, disk.files, q)
      invariant forall j | j in fetched :: j < i && !offline && fetched[j] <= assets[j].bytes
      invariant forall j | j in fetched :: Holds(disk.files, paths[j], fetched[j])
      invariant forall j | 0 <= j < i :: Fetchable(before, digest, assets[j], paths[j], refresh, offline, lucks[j])
      invariant forall j | 0 <= j < i :: j in fetched <==>
                  !Cached(before, digest, assets[j], paths[j], refresh, lucks[j])
    {
      ghost var mid, was := disk.files, fetched;
      JudgedAtStart(before, mid, digest, assets[i], paths[i], refresh, offline, lucks[i]);
      var downloaded, stored;
      ok, downloaded, stored := FetchOne(disk, digest, assets[i], Paths(assets)[i], refresh, offline, lucks[i]);
      if downloaded { fetched := fetched[i := stored]; }
      Carried(before, mid, disk.files, digest, assets[i], paths[i], downloaded);
      OthersUntouched(mid, disk.files, before, paths, i);
      forall j | 0 <= j < |assets| && j != i
        ensures Stage(before, disk.files, digest, assets[j], paths[j], j < i, j in was)
      {
        StageStays(before, mid, disk.files, digest, assets[j], paths, i, j, j < i, j in was);
      }
      forall j | j in was ensures Holds(disk.files, paths[j], was[j]) {
        HoldsStill(mid, disk.files, paths, i, j, was[j]);
      }
      if !ok {
        forall j | 0 <= j < |assets| ensures Kept(before, disk.files, digest, assets[j], paths[j], j in fetched) {
          if j != i { StageKept(before, disk.files, digest, assets[j], paths[j], j < i, j in was); }
        }
        return;
      }
    }
    ok := true;
    forall j | 0 <= j < |assets| ensures Kept(before, disk.files, digest, assets[j], paths[j], j in fetched) {
      StageKept(before, disk.files, digest, assets[j], paths[j], true, j in fetched);
    }
  }

  /** A file of `n` bytes is at the path. */
  predicate Holds(files: Files, path: string, n: nat) {
    path in files && |files[path]| == n
  }

  lemma HoldsStill(mid: Files, now: Files, paths: seq<string>, i: nat, j: nat, n: nat)
    requires Separate(paths) && i < |paths| && j < |paths| && i != j && Holds(mid, paths[j], n)
    requires forall q | q !in Own(paths[i]) :: Untouched(mid, now, q)
    ensures Holds(now, paths[j], n)
  {
    Apart(paths, i, j);
    assert paths[j] in Own(paths[j]);
  }

  lemma StartsUntouched(files: Files)
    ensures forall q :: Untouched(files, files, q)
    ensures forall qs :: AllUntouched(files, files, qs)
  {
  }

  /** What was true of an asset's own paths against `mid` is true against the start. */
  lemma Carried(before: Files, mid: Files, now: Files, digest: Digest, asset: Asset, path: string, downloaded: bool)
    requires Untouched(before, mid, path) && Untouched(before, mid, PartPath(path))
    requires OldOrPinned(mid, now, digest, asset, path)
    requires if downloaded then PartPath(path) !in now else Untouched(mid, now, PartPath(path))
    ensures Kept(before, now, digest, asset, path, downloaded)
  {
  }

  lemma OthersUntouched(mid: Files, now: Files, before: Files, paths: seq<string>, i: nat)
    requires i < |paths| && forall q | q !in Own(paths[i]) :: Untouched(mid, now, q)
    requires forall q | Foreign(paths, q) :: Untouched(before, mid, q)
    ensures forall q | Foreign(paths, q) :: Untouched(before, now, q)
  {
  }

  /** A second fetch right after a successful one downloads nothing but what it cannot read back, and
      succeeds if it can read everything. */
  method FetchTwice(disk: Disk, digest: Digest, assets: seq<Asset>, refresh: bool, offline: bool, lucks: seq<Luck>,
                    again: seq<Luck>) returns (ok: bool, okAgain: bool, second: map<nat, nat>)
    requires |lucks| == |again| == |assets| && Separate(Paths(assets))
    modifies disk
    ensures ok <==> forall i | 0 <= i < |assets| ::
              Fetchable(old(disk.files), digest, assets[i], Paths(assets)[i], refresh, offline, lucks[i])
    ensures ok ==> forall i | i in second :: i < |assets| && !again[i].readable
    ensures ok && (forall i | 0 <= i < |assets| :: again[i].readable) ==> okAgain && second == map[]
  {
    hide Sanitize, Verified;
    var fetched;
    okAgain, second := false, map[];
    ok, fetched := FetchInto(disk, digest, assets, refresh, offline, lucks);
    if ok {
      okAgain, second := FetchInto(disk, digest, assets, false, false, again);
    }
  }
}
