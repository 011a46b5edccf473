/** The verified cache of agent releases (internal/server/release_cache.go:106-383). */
module ReleaseCaches {
  import opened Text
  import opened Clock
  import opened Checksums

  const CHECKSUMS := "checksums.txt"

  const LATEST := "latest"

  const LINUX_ASSETS := {"server-status-agent-linux-amd64", "server-status-agent-linux-arm64"}

  const MAX_ASSET := 0x400_0000

  const MAX_CHECKSUMS := 0x10_0000

  predicate ValidAsset(asset: string) {
    asset in {
      CHECKSUMS, "server-status-agent-linux-amd64", "server-status-agent-linux-arm64", "server-status-agent-macos",
      "server-status-agent-windows-386.exe", "server-status-agent-windows-amd64.exe",
      "server-status-smartctl-windows-setup.exe", "server-status-smartctl-source.tar.gz"}
  }

  type Sha256 = string -> string

  datatype File = File(content: string, modified: Instant)

  datatype Key = Key(version: string, asset: string)

  type Files = map<Key, File>

  // ---- checksums ----

  predicate Listable(asset: string) { ValidAsset(asset) && asset != CHECKSUMS }

  /** A usable checksums file lists both Linux programs. */
  predicate Complete(lines: seq<Line>) {
    forall asset :: asset in LINUX_ASSETS ==> LastDigest(lines, asset).Some?
  }

  /** The digest a checksums file gives for an asset. */
  function DigestFor(content: string, asset: string): Option<string> {
    if Complete(LinesOf(content)) && Listable(asset) then LastDigest(LinesOf(content), asset) else None
  }

  ghost predicate IsTable(table: map<string, string>, lines: seq<Line>) {
    forall asset ::
      if Listable(asset) && LastDigest(lines, asset).Some?
      then asset in table && table[asset] == LastDigest(lines, asset).value
      else asset !in table
  }

  method ParseReleaseChecksums(content: string) returns (table: Option<map<string, string>>)
    ensures table.Some? <==> Complete(LinesOf(content))
    ensures table.Some? ==> IsTable(table.value, LinesOf(content))
  {
    hide LinesOf, ValidAsset, IsDigest, ToLower, IsTable, LastDigest;
    var lines := LinesOf(content);
    var checksums: map<string, string> := map[];
    EmptyTable();
    for i := 0 to |lines|
      invariant IsTable(checksums, lines[..i])
    {
      var fields := lines[i];
      TableStep(checksums, lines, i);
      if |fields| != 2 || !ValidAsset(fields[1]) || fields[1] == CHECKSUMS {
        continue;
      }
      if |fields[0]| != 64 || !IsDigest(fields[0]) {
        assert !IsDigest(fields[0]) by { DigestLength(fields[0]); }
        continue;
      }
      checksums := checksums[fields[1] := ToLower(fields[0])];
    }
    assert lines[..|lines|] == lines;
    ListedInTable(checksums, lines);
    if !("server-status-agent-linux-amd64" in checksums && "server-status-agent-linux-arm64" in checksums) {
      return None;
    }
    table := Some(checksums);
  }

  lemma EmptyTable()
    ensures IsTable(map[], [])
  {}

  lemma DigestLength(s: string)
    ensures |s| != 64 ==> !IsDigest(s)
  {}

  lemma ListedInTable(table: map<string, string>, lines: seq<Line>)
    requires IsTable(table, lines)
    ensures forall asset :: asset in LINUX_ASSETS ==> (asset in table <==> LastDigest(lines, asset).Some?)
  {
    assert forall asset :: asset in LINUX_ASSETS ==> Listable(asset);
  }

  /** One line of the file changes the table as the scan does. */
  lemma TableStep(table: map<string, string>, lines: seq<Line>, i: nat)
    requires i < |lines| && IsTable(table, lines[..i])
    ensures var fields := lines[i];
      if |fields| == 2 && Listable(fields[1]) && IsDigest(fields[0])
      then IsTable(table[fields[1] := ToLower(fields[0])], lines[..i + 1])
      else IsTable(table, lines[..i + 1])
  {
    hide IsDigest, ToLower, ValidAsset;
    assert lines[..i + 1][..i] == lines[..i] && lines[..i + 1][i] == lines[i];
    var fields := lines[i];
    forall asset ensures LastDigest(lines[..i + 1], asset)
                         == if Lists(fields, asset) then Some(ToLower(fields[0])) else LastDigest(lines[..i], asset) {}
  }

  method ChecksumForAsset(content: string, asset: string) returns (digest: Option<string>)
    ensures digest == DigestFor(content, asset)
  {
    hide LinesOf, LastDigest, ValidAsset, Complete;
    var table := ParseReleaseChecksums(content);
    digest := if table.None? || asset !in table.value then None else Some(table.value[asset]);
  }

  ghost predicate FirstListing(lines: seq<Line>, asset: string, i: nat) {
    i < |lines| && Lists(lines[i], asset) && forall j :: 0 <= j < i ==> !Lists(lines[j], asset)
  }

  ghost predicate LastListing(lines: seq<Line>, asset: string, i: nat) {
    i < |lines| && Lists(lines[i], asset) && forall j :: i < j < |lines| ==> !Lists(lines[j], asset)
  }

  lemma {:induction false} SomeFirst(lines: seq<Line>, asset: string, k: nat) returns (i: nat)
    requires k < |lines| && Lists(lines[k], asset)
    ensures FirstListing(lines, asset, i)
    decreases k
  {
    i := k;
    if h: nat :| h < k && Lists(lines[h], asset) {
      i := SomeFirst(lines, asset, h);
    }
  }

  lemma {:induction false} SomeLast(lines: seq<Line>, asset: string, k: nat) returns (i: nat)
    requires k < |lines| && Lists(lines[k], asset)
    ensures LastListing(lines, asset, i)
    decreases |lines| - k
  {
    i := k;
    if h: nat :| k < h < |lines| && Lists(lines[h], asset) {
      i := SomeLast(lines, asset, h);
    }
  }

  /** The first and the last line for the asset give one digest. */
  ghost predicate EndsAgree(lines: seq<Line>, asset: string) {
    forall i: nat, j: nat :: FirstListing(lines, asset, i) && LastListing(lines, asset, j) ==> ToLower(lines[i][0]) == ToLower(lines[j][0])
  }

  lemma EndsDecide(lines: seq<Line>, asset: string)
    requires exists k :: 0 <= k < |lines| && Lists(lines[k], asset)
    ensures FirstDigest(lines, asset).Some? && LastDigest(lines, asset).Some?
    ensures FirstDigest(lines, asset) == LastDigest(lines, asset) <==> EndsAgree(lines, asset)
  {
    var k :| 0 <= k < |lines| && Lists(lines[k], asset);
    var i := SomeFirst(lines, asset, k);
    var j := SomeLast(lines, asset, k);
    hide ToLower, Lists, FirstDigest, LastDigest;
    FirstAt(lines, asset, i);
    LastAt(lines, asset, j);
    OnlyEnds(lines, asset, i, j);
  }

  lemma OnlyEnds(lines: seq<Line>, asset: string, i: nat, j: nat)
    requires FirstListing(lines, asset, i) && LastListing(lines, asset, j)
    ensures EndsAgree(lines, asset) <==> ToLower(lines[i][0]) == ToLower(lines[j][0])
  {
    hide ToLower, IsDigest;
    assert forall h: nat :: (FirstListing(lines, asset, h) ==> h == i) && (LastListing(lines, asset, h) ==> h == j);
  }

  /**
   * Server and agent read the same digest for an asset, or both none, exactly when no line lists it, or the file is
   * complete and its first and last lines for the asset give one digest.
   */
  lemma ReadAlikeIff(content: string, asset: string)
    requires Listable(asset)
    ensures var lines := LinesOf(content);
      DigestFor(content, asset) == FirstDigest(lines, asset) <==>
        || (forall i :: 0 <= i < |lines| ==> !Lists(lines[i], asset))
        || (Complete(lines) && EndsAgree(lines, asset))
  {
    hide LinesOf, ValidAsset, Lists, FirstDigest, LastDigest, Complete, EndsAgree;
    var lines := LinesOf(content);
    if k :| 0 <= k < |lines| && Lists(lines[k], asset) {
      EndsDecide(lines, asset);
    } else {
      NoneListed(lines, asset);
    }
  }

  // ---- one file ----

  datatype Ensured = Ensured(ok: bool, hit: bool, files: Files, used: nat)

  predicate WithinLimit(asset: string, content: string) {
    |content| <= if asset == CHECKSUMS then MAX_CHECKSUMS else MAX_ASSET
  }

  predicate Present(files: Files, k: Key) { k in files && files[k].content != "" }

  /** A cached file is used as it is; one of the moving release only for ten minutes, or when no newer can be had. */
  function EnsureFile(files: Files, k: Key, now: Instant, upstream: Option<string>): (r: Ensured)
    ensures r.used <= 1 && (r.ok ==> k in r.files) && (!r.ok ==> r.files == files && !Present(files, k))
  {
    if Present(files, k) && (k.version != LATEST || now - files[k].modified < Minutes(10)) then Ensured(true, true, files, 0)
    else if upstream.Some? && WithinLimit(k.asset, upstream.value) then Ensured(true, false, files[k := File(upstream.value, now)], 1)
    else if Present(files, k) then Ensured(true, true, files, 1)
    else Ensured(false, false, files, 1)
  }

  // ---- a request ----

  datatype Answer = FromBundle | FromCache(hit: bool) | Failed

  /** `mismatched` tells whether some verification failed on the way. */
  datatype Outcome = Outcome(answer: Answer, files: Files, used: nat, mismatched: bool)

  /** The bundled release directory, if it has this version. */
  function Bundled(bundle: Files, sha256: Sha256, version: string, asset: string): Option<Answer> {
    var ck, k := Key(version, CHECKSUMS), Key(version, asset);
    if ck !in bundle then None
    else if bundle[ck].content == "" || !Complete(LinesOf(bundle[ck].content)) then Some(Failed)
    else if asset == CHECKSUMS then Some(FromBundle)
    else
      var expected := DigestFor(bundle[ck].content, asset);
      if expected.None? || !Present(bundle, k) || sha256(bundle[k].content) != expected.value then Some(Failed)
      else Some(FromBundle)
  }

  /** After a mismatch: fetch again, for the moving release with fresh checksums. */
  function Retried(files: Files, sha256: Sha256, version: string, asset: string, now: Instant, upstream: seq<Option<string>>, used: nat,
                   expected: string): Outcome
    requires used + 2 <= |upstream|
  {
    var ck, k := Key(version, CHECKSUMS), Key(version, asset);
    var c := if version == LATEST then EnsureFile(files - {ck}, ck, now, upstream[used]) else Ensured(true, true, files, 0);
    if !c.ok then Outcome(Failed, c.files, used + c.used, true)
    else
      var again := if version == LATEST then DigestFor(c.files[ck].content, asset) else Some(expected);
      if again.None? then Outcome(Failed, c.files, used + c.used, true)
      else
        var a := EnsureFile(c.files, k, now, upstream[used + c.used]);
        if !a.ok then Outcome(Failed, a.files, used + c.used + a.used, true)
        else if sha256(a.files[k].content) != again.value then Outcome(Failed, a.files - {k}, used + c.used + a.used, true)
        else Outcome(FromCache(false), a.files, used + c.used + a.used, true)
  }

  function Cached(files: Files, sha256: Sha256, version: string, asset: string, now: Instant, upstream: seq<Option<string>>): Outcome
    requires |upstream| == 4
  {
    var ck, k := Key(version, CHECKSUMS), Key(version, asset);
    var c := EnsureFile(files, ck, now, upstream[0]);
    if !c.ok then Outcome(Failed, c.files, c.used, false)
    else if asset == CHECKSUMS then
      if Complete(LinesOf(c.files[ck].content)) then Outcome(FromCache(c.hit), c.files, c.used, false)
      else Outcome(Failed, c.files - {ck}, c.used, false)
    else
      var expected := DigestFor(c.files[ck].content, asset);
      if expected.None? then Outcome(Failed, c.files - {ck}, c.used, false)
      else
        var a := EnsureFile(c.files, k, now, upstream[c.used]);
        if !a.ok then Outcome(Failed, a.files, c.used + a.used, false)
        else if sha256(a.files[k].content) == expected.value
        then Outcome(FromCache(c.hit && a.hit), a.files, c.used + a.used, false)
        else Retried(a.files - {k}, sha256, version, asset, now, upstream, c.used + a.used, expected.value)
  }

  function AssetPath(bundle: Files, files: Files, sha256: Sha256, version: string, asset: string, now: Instant,
                     upstream: seq<Option<string>>): Outcome
    requires |upstream| == 4
  {
    var bundled := Bundled(bundle, sha256, version, asset);
    if bundled.Some? then Outcome(bundled.value, files, 0, false)
    else Cached(files, sha256, version, asset, now, upstream)
  }

  // ---- the cache ----

  class ReleaseCache {
    const bundle: Files
    var files: Files
    /** Downloads of the request being served. */
    var used: nat

    constructor (bundle: Files, files: Files)
      ensures this.bundle == bundle && this.files == files
    {
      this.bundle, this.files, used := bundle, files, 0;
    }

    method Ensure(k: Key, now: Instant, upstream: seq<Option<string>>) returns (ok: bool, hit: bool)
      requires used < |upstream|
      modifies this
      ensures old(used) <= used
      ensures Ensured(ok, hit, files, used - old(used)) == EnsureFile(old(files), k, now, upstream[old(used)])
    {
      var stale := false;
      if k in files && files[k].content != "" {
        if k.version != LATEST || now - files[k].modified < Minutes(10) {
          return true, true;
        }
        stale := true;
      }
      var body := upstream[used];
      used := used + 1;
      if body.Some? && WithinLimit(k.asset, body.value) {
        files := files[k := File(body.value, now)];
        return true, false;
      }
      return stale, stale;
    }

    method BundledAssetPath(sha256: Sha256, version: string, asset: string) returns (answer: Option<Answer>)
      ensures answer == Bundled(bundle, sha256, version, asset)
    {
      hide LinesOf, LastDigest, ValidAsset;
      var ck, k := Key(version, CHECKSUMS), Key(version, asset);
      if ck !in bundle {
        return None;
      }
      if bundle[ck].content == "" {
        return Some(Failed);
      }
      var table := ParseReleaseChecksums(bundle[ck].content);
      if table.None? {
        return Some(Failed);
      }
      if asset == CHECKSUMS {
        return Some(FromBundle);
      }
      var expected := ChecksumForAsset(bundle[ck].content, asset);
      if expected.None? || k !in bundle || bundle[k].content == "" {
        return Some(Failed);
      }
      if sha256(bundle[k].content) != expected.value {
        return Some(Failed);
      }
      return Some(FromBundle);
    }

    /** `assetPath`, under the mutex; `upstream` is what up to four downloads would bring. */
    method Serve(sha256: Sha256, version: string, asset: string, now: Instant, upstream: seq<Option<string>>)
      returns (answer: Answer, mismatched: bool)
      requires |upstream| == 4
      modifies this
      ensures Outcome(answer, files, used, mismatched) == AssetPath(bundle, old(files), sha256, version, asset, now, upstream)
    {
      hide LinesOf, LastDigest, ValidAsset, DigestFor, Complete, Bundled, EnsureFile, Retried;
      used, mismatched := 0, false;
      var bundled := BundledAssetPath(sha256, version, asset);
      if bundled.Some? {
        return bundled.value, false;
      }
      var ck, k := Key(version, CHECKSUMS), Key(version, asset);
      var checksumsOk, checksumsHit := Ensure(ck, now, upstream);
      if !checksumsOk {
        return Failed, false;
      }
      if asset == CHECKSUMS {
        var table := ParseReleaseChecksums(files[ck].content);
        if table.None? {
          files := files - {ck};
          return Failed, false;
        }
        return FromCache(checksumsHit), false;
      }
      var expected := ChecksumForAsset(files[ck].content, asset);
      if expected.None? {
        files := files - {ck};
        return Failed, false;
      }
      var assetOk, assetHit := Ensure(k, now, upstream);
      if !assetOk {
        return Failed, false;
      }
      if sha256(files[k].content) != expected.value {
        files := files - {k};
        answer := Retry(sha256, version, asset, now, upstream, expected.value);
        return answer, true;
      }
      return FromCache(checksumsHit && assetHit), false;
    }

    method Retry(sha256: Sha256, version: string, asset: string, now: Instant, upstream: seq<Option<string>>, expected: string)
      returns (answer: Answer)
      requires used + 2 <= |upstream|
      modifies this
      ensures Outcome(answer, files, used, true) == Retried(old(files), sha256, version, asset, now, upstream, old(used), expected)
    {
      hide LinesOf, LastDigest, ValidAsset, DigestFor, EnsureFile;
      var ck, k := Key(version, CHECKSUMS), Key(version, asset);
      var wanted := Some(expected);
      if version == LATEST {
        files := files - {ck};
        var checksumsOk, _ := Ensure(ck, now, upstream);
        if !checksumsOk {
          return Failed;
        }
        wanted := ChecksumForAsset(files[ck].content, asset);
        if wanted.None? {
          return Failed;
        }
      }
      var assetOk, _ := Ensure(k, now, upstream);
      if !assetOk {
        return Failed;
      }
      if sha256(files[k].content) != wanted.value {
        files := files - {k};
        return Failed;
      }
      return FromCache(false);
    }
  }

  // ---- what a request guarantees ----

  /** The file to be sent, and the checksums that vouch for it. */
  ghost predicate Vouched(files: Files, sha256: Sha256, version: string, asset: string) {
    && Key(version, CHECKSUMS) in files && Key(version, asset) in files
    && DigestFor(files[Key(version, CHECKSUMS)].content, asset) == Some(sha256(files[Key(version, asset)].content))
  }

  lemma RetriedIsVouched(files: Files, sha256: Sha256, version: string, asset: string, now: Instant, upstream: seq<Option<string>>,
                         used: nat, expected: string)
    requires used + 2 <= |upstream| && asset != CHECKSUMS && Key(version, asset) !in files && Key(version, CHECKSUMS) in files
    requires DigestFor(files[Key(version, CHECKSUMS)].content, asset) == Some(expected)
    ensures var o := Retried(files, sha256, version, asset, now, upstream, used, expected);
      && o.used <= used + 2 && !o.answer.FromBundle?
      && (!o.answer.Failed? ==> Vouched(o.files, sha256, version, asset))
      && (o.answer.Failed? ==> Key(version, asset) !in o.files)
      && (forall k :: k != Key(version, asset) && k != Key(version, CHECKSUMS) ==> (k in o.files <==> k in files) && (k in files ==> o.files[k] == files[k]))
  {
    hide DigestFor, Complete, ValidAsset, LastDigest, LinesOf;
  }

  /**
   * For every prior cache content and every upstream behaviour: a served asset has the digest its checksums file
   * then in place lists; a failure after a mismatch leaves the asset absent; at most four downloads are made; no
   * other file is touched.
   */
  lemma ServedIsVerified(bundle: Files, files: Files, sha256: Sha256, version: string, asset: string, now: Instant,
                         upstream: seq<Option<string>>)
    requires |upstream| == 4
    ensures var o := AssetPath(bundle, files, sha256, version, asset, now, upstream);
      && o.used <= 4
      && (asset != CHECKSUMS && o.answer.FromCache? ==> Vouched(o.files, sha256, version, asset))
      && (asset != CHECKSUMS && o.answer.FromBundle? ==> Vouched(bundle, sha256, version, asset))
      && (asset == CHECKSUMS && o.answer.FromCache? ==>
            Key(version, asset) in o.files && Complete(LinesOf(o.files[Key(version, asset)].content)))
      && (o.answer.Failed? && o.mismatched ==> Key(version, asset) !in o.files)
      && (forall k :: k != Key(version, asset) && k != Key(version, CHECKSUMS) ==> (k in o.files <==> k in files) && (k in files ==> o.files[k] == files[k]))
  {
    hide DigestFor, ValidAsset, LastDigest, LinesOf, Retried, Complete;
    var ck, k := Key(version, CHECKSUMS), Key(version, asset);
    if Bundled(bundle, sha256, version, asset).None? {
      var c := EnsureFile(files, ck, now, upstream[0]);
      if c.ok && asset != CHECKSUMS {
        var expected := DigestFor(c.files[ck].content, asset);
        if expected.Some? {
          var a := EnsureFile(c.files, k, now, upstream[c.used]);
          if a.ok && sha256(a.files[k].content) != expected.value {
            RetriedIsVouched(a.files - {k}, sha256, version, asset, now, upstream, c.used + a.used, expected.value);
          }
        }
      }
    }
  }

  // ---- how fresh a served file is ----

  /** A file that is there and, if its release moves, less than ten minutes old. */
  predicate Kept(files: Files, k: Key, now: Instant) {
    k in files && files[k].content != "" && (k.version == "latest" ==> now - files[k].modified < 600_000_000_000)
  }

  /** The download brought a file within the limit: 1 MiB for checksums, 64 MiB for a program. */
  predicate Brought(asset: string, download: Option<string>) {
    download.Some? && |download.value| <= if asset == "checksums.txt" then 1_048_576 else 67_108_864
  }

  /** The file is what one of the first `used` downloads brought, stored now. */
  ghost predicate JustStored(after: Files, k: Key, now: Instant, upstream: seq<Option<string>>, used: nat)
    requires used <= |upstream|
  {
    k in after && exists i :: 0 <= i < used && Brought(k.asset, upstream[i]) && after[k] == File(upstream[i].value, now)
  }

  /** The file is as it was before, kept or because download number `j` brought nothing. */
  ghost predicate AsItWas(before: Files, after: Files, k: Key, now: Instant, upstream: seq<Option<string>>, j: nat, used: nat)
    requires used <= |upstream|
  {
    && k in before && before[k].content != "" && k in after && after[k] == before[k]
    && (Kept(before, k, now) || (j < used && !Brought(k.asset, upstream[j])))
  }

  /** Downloads for files that are not kept. */
  function Needed(files: Files, k: Key, now: Instant): nat {
    if Kept(files, k, now) then 0 else 1
  }

  lemma EnsuredIsFresh(files: Files, k: Key, now: Instant, upstream: seq<Option<string>>, j: nat)
    requires j < |upstream|
    ensures var r := EnsureFile(files, k, now, upstream[j]);
      && r.used == Needed(files, k, now)
      && (r.ok && r.hit ==> r.files == files && AsItWas(files, r.files, k, now, upstream, j, j + r.used))
      && (r.ok && !r.hit ==> r.used == 1 && Brought(k.asset, upstream[j]) && r.files == files[k := File(upstream[j].value, now)])
      && (r.ok <==> Present(files, k) || Brought(k.asset, upstream[j]))
  {}

  lemma RetriedIsFresh(files: Files, sha256: Sha256, version: string, asset: string, now: Instant, upstream: seq<Option<string>>,
                       used: nat, expected: string)
    requires used + 2 <= |upstream| && asset != CHECKSUMS && Key(version, asset) !in files && Key(version, CHECKSUMS) in files
    ensures var o := Retried(files, sha256, version, asset, now, upstream, used, expected);
      o.mismatched && (o.answer.FromCache? ==>
        && o.answer == FromCache(false) && used < o.used <= used + 2
        && JustStored(o.files, Key(version, asset), now, upstream, o.used)
        && (version == LATEST ==> JustStored(o.files, Key(version, CHECKSUMS), now, upstream, o.used))
        && (version != LATEST ==> Key(version, CHECKSUMS) in o.files && o.files[Key(version, CHECKSUMS)] == files[Key(version, CHECKSUMS)]))
  {
    hide DigestFor;
  }

  /**
   * For every request served from the cache: the checksums and the asset are each as they were before, and then kept
   * (a moving release only for ten minutes) or a download for them brought nothing; or they are what upstream sent in
   * this call, stored now. Files that are kept cost no download, others one, as long as the digests match.
   */
  lemma ServedIsFresh(bundle: Files, files: Files, sha256: Sha256, version: string, asset: string, now: Instant,
                      upstream: seq<Option<string>>)
    requires |upstream| == 4 && AssetPath(bundle, files, sha256, version, asset, now, upstream).answer.FromCache?
    ensures var o, ck, k := AssetPath(bundle, files, sha256, version, asset, now, upstream), Key(version, CHECKSUMS), Key(version, asset);
      && o.used <= 4
      && (AsItWas(files, o.files, ck, now, upstream, 0, o.used) || JustStored(o.files, ck, now, upstream, o.used))
      && (AsItWas(files, o.files, k, now, upstream, if o.used > 0 then o.used - 1 else 0, o.used) || JustStored(o.files, k, now, upstream, o.used))
      && (!o.mismatched ==> o.used == Needed(files, ck, now) + if asset == CHECKSUMS then 0 else Needed(files, k, now))
      && (o.answer == FromCache(true) ==> o.files == files && !o.mismatched)
      && (o.answer == FromCache(false) ==> JustStored(o.files, ck, now, upstream, o.used) || JustStored(o.files, k, now, upstream, o.used))
  {
    hide DigestFor, Complete, ValidAsset, LastDigest, LinesOf, Retried, EnsureFile, Brought, Present;
    var ck, k := Key(version, CHECKSUMS), Key(version, asset);
    var c := EnsureFile(files, ck, now, upstream[0]);
    EnsuredIsFresh(files, ck, now, upstream, 0);
    if asset != CHECKSUMS {
      EnsuredIsFresh(c.files, k, now, upstream, c.used);
      var a := EnsureFile(c.files, k, now, upstream[c.used]);
      var expected := DigestFor(c.files[ck].content, asset).value;
      if sha256(a.files[k].content) != expected {
        RetriedIsFresh(a.files - {k}, sha256, version, asset, now, upstream, c.used + a.used, expected);
        assert a.files[ck] == c.files[ck];
        if version != LATEST && !c.hit {
          assert Brought(ck.asset, upstream[0]) && c.files[ck] == File(upstream[0].value, now);
        }
      }
    }
  }

  /** When both files are kept and match, the request is served as it is. */
  lemma KeptIsServed(bundle: Files, files: Files, sha256: Sha256, version: string, asset: string, now: Instant, upstream: seq<Option<string>>)
    requires |upstream| == 4 && Key(version, CHECKSUMS) !in bundle && asset != CHECKSUMS
    requires Kept(files, Key(version, CHECKSUMS), now) && Kept(files, Key(version, asset), now) && Vouched(files, sha256, version, asset)
    ensures AssetPath(bundle, files, sha256, version, asset, now, upstream) == Outcome(FromCache(true), files, 0, false)
  {
    hide DigestFor;
  }

  /**
   * A release that moved on heals: kept or not, matching or not, files of the moving release are replaced and served
   * once upstream sends checksums and the program they list.
   */
  lemma MovedReleaseHeals(bundle: Files, files: Files, sha256: Sha256, asset: string, now: Instant, upstream: seq<Option<string>>,
                          checksums: string, program: string)
    requires |upstream| == 4 && Key(LATEST, CHECKSUMS) !in bundle && asset != CHECKSUMS
    requires DigestFor(checksums, asset) == Some(sha256(program))
    requires Brought(CHECKSUMS, Some(checksums)) && Brought(asset, Some(program))
    requires (!Kept(files, Key(LATEST, CHECKSUMS), now) && !Kept(files, Key(LATEST, asset), now))
             || (Kept(files, Key(LATEST, CHECKSUMS), now) && Kept(files, Key(LATEST, asset), now)
                 && DigestFor(files[Key(LATEST, CHECKSUMS)].content, asset).Some? && !Vouched(files, sha256, LATEST, asset))
    requires upstream[0] == Some(checksums) && upstream[1] == Some(program)
    ensures var o := AssetPath(bundle, files, sha256, LATEST, asset, now, upstream);
      && o.answer == FromCache(false) && o.used == 2
      && o.files == files[Key(LATEST, CHECKSUMS) := File(checksums, now)][Key(LATEST, asset) := File(program, now)]
  {
    hide DigestFor;
    var ck, k := Key(LATEST, CHECKSUMS), Key(LATEST, asset);
    assert (files - {k} - {ck})[ck := File(checksums, now)][k := File(program, now)] == files[ck := File(checksums, now)][k := File(program, now)];
  }

  // ---- the bundle ----

  /** A version with a bundled checksums file is answered from the bundle alone: the listed file, or a failure. */
  lemma BundleDecides(bundle: Files, files: Files, sha256: Sha256, version: string, asset: string, now: Instant, upstream: seq<Option<string>>)
    requires |upstream| == 4
    ensures var o, ck, k := AssetPath(bundle, files, sha256, version, asset, now, upstream), Key(version, CHECKSUMS), Key(version, asset);
      && (ck in bundle ==> o.files == files && o.used == 0 && !o.answer.FromCache?)
      && (o.answer.FromBundle? <==>
            && ck in bundle && bundle[ck].content != "" && Complete(LinesOf(bundle[ck].content))
            && (asset == CHECKSUMS || (k in bundle && bundle[k].content != "" && Vouched(bundle, sha256, version, asset))))
  {
    hide ValidAsset, LastDigest, LinesOf, EnsureFile, Retried, Complete;
    ServedIsVerified(bundle, files, sha256, version, asset, now, upstream);
    if Key(version, CHECKSUMS) !in bundle {
      NeverFromBundle(files, sha256, version, asset, now, upstream);
    }
  }

  lemma NeverFromBundle(files: Files, sha256: Sha256, version: string, asset: string, now: Instant, upstream: seq<Option<string>>)
    requires |upstream| == 4
    ensures !Cached(files, sha256, version, asset, now, upstream).answer.FromBundle?
  {
    hide DigestFor, Complete, LinesOf, EnsureFile;
  }

  /** A corrupt cached asset heals: whatever was stored, a tagged release is served once upstream sends the listed file. */
  lemma CorruptAssetHeals(files: Files, sha256: Sha256, version: string, asset: string, now: Instant, upstream: seq<Option<string>>,
                          genuine: string)
    requires |upstream| == 4 && version != LATEST && asset != CHECKSUMS && Present(files, Key(version, CHECKSUMS))
    requires DigestFor(files[Key(version, CHECKSUMS)].content, asset) == Some(sha256(genuine)) && WithinLimit(asset, genuine)
    requires upstream[0] == Some(genuine)
    requires Present(files, Key(version, asset)) && sha256(files[Key(version, asset)].content) != sha256(genuine)
    ensures var o := Cached(files, sha256, version, asset, now, upstream);
      o.answer.FromCache? && o.used == 1 && o.files == files[Key(version, asset) := File(genuine, now)]
  {
    hide DigestFor, ValidAsset, LastDigest, LinesOf;
    var k := Key(version, asset);
    assert (files - {k})[k := File(genuine, now)] == files[k := File(genuine, now)];
  }
}
