/**
 * Self-update: the directive the server adds to a receipt (internal/server/http.go:134-136), the agent's `Apply`
 * (internal/agent/updater.go:49-114), and runs of both.
 */
module SelfUpdate {
  import opened Text
  import opened Numbers
  import opened Versions
  import opened Checksums

  /** The bytes of a program file. */
  type Program = string

  /** SHA-256 in lower-case hexadecimal, and the text a program prints for `--version`. */
  datatype World = World(sha256: Program -> string, says: Program -> string)

  /** What the network, the file system and the operating system do during one attempt. */
  datatype Luck = Luck(
    checksums: Option<string>, located: bool, created: bool, binary: Option<Program>, flushed: bool,
    executable: bool, ran: bool, renamed: bool)

  const MAX_CHECKSUMS := 0x10_0000

  const MAX_BINARY := 0x400_0000

  datatype Refusal =
    | InvalidTarget | Incomparable | NotNewer | UnsupportedPlatform | DownloadFailed | NoChecksum
    | FileSystemFailed | WrongChecksum | WrongVersion

  function AssetName(os: string, architecture: string): Option<string> {
    if os == "linux" && architecture in {"amd64", "arm64"} then Some("server-status-agent-linux-" + architecture) else None
  }

  /** The receipt asks for an update when the reporting agent is older than the server's own release. */
  function Directive(reported: string, latest: string): Option<string> {
    var c := Compare(reported, latest);
    if c.Some? && c.value < 0 then Some(latest) else None
  }

  /** The checks on the downloaded program, up to the rename. */
  function Unfit(w: World, luck: Luck, expected: string, normal: string): Option<Refusal> {
    if luck.binary.None? || |luck.binary.value| > MAX_BINARY then Some(DownloadFailed)
    else if !luck.flushed then Some(FileSystemFailed)
    else if w.sha256(luck.binary.value) != expected then Some(WrongChecksum)
    else if !luck.executable then Some(FileSystemFailed)
    else if !luck.ran || Normalize(TrimSpace(w.says(luck.binary.value))) != Some(normal) then Some(WrongVersion)
    else if !luck.renamed then Some(FileSystemFailed)
    else None
  }

  /** The checks between a directive and the replacement, in order. */
  function Verdict(w: World, version: string, asset: Option<string>, luck: Luck, target: string): Option<Refusal> {
    var normal := Normalize(target);
    if normal.None? then Some(InvalidTarget)
    else if Compare(version, normal.value).None? then Some(Incomparable)
    else if Compare(version, normal.value).value >= 0 then Some(NotNewer)
    else if asset.None? then Some(UnsupportedPlatform)
    else if luck.checksums.None? || |luck.checksums.value| > MAX_CHECKSUMS then Some(DownloadFailed)
    else
      var expected := FirstDigest(LinesOf(luck.checksums.value), asset.value);
      if expected.None? then Some(NoChecksum)
      else if !luck.located || !luck.created then Some(FileSystemFailed)
      else Unfit(w, luck, expected.value, normal.value)
  }

  class Agent {
    const os: string
    const architecture: string
    /** The program file the agent was started from, and the temporary file beside it. */
    var installed: Program
    var temporary: Option<Program>

    constructor (os: string, architecture: string, installed: Program)
      ensures this.os == os && this.architecture == architecture && this.installed == installed && temporary == None
    {
      this.os, this.architecture, this.installed := os, architecture, installed;
      temporary := None;
    }

    /**
     * `Updater.Apply`. The executable is replaced exactly when every check passes, and is otherwise unchanged; no
     * temporary file is left behind.
     */
    method Apply(w: World, luck: Luck, target: string) returns (refusal: Option<Refusal>)
      requires temporary == None
      modifies this
      ensures temporary == None
      ensures refusal == Verdict(w, w.says(old(installed)), AssetName(os, architecture), luck, target)
      ensures Some(installed) == if refusal.None? then luck.binary else Some(old(installed))
    {
      hide Normalize, Compare, FirstDigest, LinesOf, TrimSpace, AssetName, Unfit;
      var normal := Normalize(target);
      if normal.None? {
        return Some(InvalidTarget);
      }
      var comparison := CompareVersions(w.says(installed), normal.value);
      if comparison.None? {
        return Some(Incomparable);
      }
      if comparison.value >= 0 {
        return Some(NotNewer);
      }
      var asset := AssetName(os, architecture);
      if asset.None? {
        return Some(UnsupportedPlatform);
      }
      if luck.checksums.None? || |luck.checksums.value| > MAX_CHECKSUMS {
        return Some(DownloadFailed);
      }
      var expected := UpdateChecksumForAsset(LinesOf(luck.checksums.value), asset.value);
      if expected.None? {
        return Some(NoChecksum);
      }
      if !luck.located || !luck.created {
        return Some(FileSystemFailed);
      }
      refusal := Replace(w, luck, expected.value, normal.value);
    }

    /** From the temporary file on: it is renamed over the executable, or removed. */
    method Replace(w: World, luck: Luck, expected: string, normal: string) returns (refusal: Option<Refusal>)
      modifies this
      ensures temporary == None
      ensures refusal == Unfit(w, luck, expected, normal)
      ensures Some(installed) == if refusal.None? then luck.binary else Some(old(installed))
    {
      hide Normalize, TrimSpace;
      temporary := Some("");
      if luck.binary.None? || |luck.binary.value| > MAX_BINARY {
        temporary := None;
        return Some(DownloadFailed);
      }
      temporary := luck.binary;
      if !luck.flushed {
        temporary := None;
        return Some(FileSystemFailed);
      }
      if w.sha256(temporary.value) != expected {
        temporary := None;
        return Some(WrongChecksum);
      }
      if !luck.executable {
        temporary := None;
        return Some(FileSystemFailed);
      }
      if !luck.ran || Normalize(TrimSpace(w.says(temporary.value))) != Some(normal) {
        temporary := None;
        return Some(WrongVersion);
      }
      if !luck.renamed {
        temporary := None;
        return Some(FileSystemFailed);
      }
      installed := temporary.value;
      temporary := None;
      refusal := None;
    }

    /** One accepted report: the receipt's directive, if any, is applied and the agent restarts on the new program. */
    method Round(w: World, luck: Luck, latest: string) returns (directive: Option<string>)
      requires temporary == None
      modifies this
      ensures temporary == None
      ensures directive == Directive(w.says(old(installed)), latest)
      ensures installed == AfterRound(w, AssetName(os, architecture), old(installed), RoundOf(luck, latest))
    {
      hide Verdict, Compare;
      var comparison := CompareVersions(w.says(installed), latest);
      if comparison.None? || comparison.value >= 0 {
        return None;
      }
      directive := Some(latest);
      var refusal := Apply(w, luck, latest);
    }
  }

  // ---- runs ----

  /** The server's release at the time of the report, and what happens during the attempt. */
  datatype RoundOf = RoundOf(luck: Luck, latest: string)

  function AfterRound(w: World, asset: Option<string>, installed: Program, r: RoundOf): Program {
    hide Normalize, Compare, FirstDigest, LinesOf;
    var directive := Directive(w.says(installed), r.latest);
    if directive.None? then installed
    else if Verdict(w, w.says(installed), asset, r.luck, directive.value).Some? then installed
    else r.luck.binary.value
  }

  function Installed(w: World, asset: Option<string>, first: Program, rounds: seq<RoundOf>): Program {
    if rounds == [] then first
    else
      var n := |rounds| - 1;
      AfterRound(w, asset, Installed(w, asset, first, rounds[..n]), rounds[n])
  }

  ghost predicate Replaces(w: World, asset: Option<string>, installed: Program, r: RoundOf) {
    var directive := Directive(w.says(installed), r.latest);
    directive.Some? && Verdict(w, w.says(installed), asset, r.luck, directive.value).None?
  }

  /** What is installed was listed under its own digest, reports the target, and is newer than what it replaces. */
  lemma ReplacementIsVerified(w: World, asset: Option<string>, installed: Program, r: RoundOf)
    requires Replaces(w, asset, installed, r)
    ensures var next := AfterRound(w, asset, installed, r);
      && asset.Some? && FirstDigest(LinesOf(r.luck.checksums.value), asset.value) == Some(w.sha256(next))
      && Compare(w.says(installed), w.says(next)).Some? && Compare(w.says(installed), w.says(next)).value < 0
      && Compare(w.says(next), r.latest) == Some(0)
  {
    hide Normalize, Compare, FirstDigest, LinesOf, TrimSpace, Parse;
    var next := AfterRound(w, asset, installed, r);
    var said := TrimSpace(w.says(next));
    assert Normalize(said) == Normalize(r.latest) && Normalize(said).Some?;
    SameNormalForm(said, r.latest);
    TrimmedIsFixed(said);
    CompareByParsed(w.says(next), r.latest);
    CompareSame(w.says(installed), w.says(next), r.latest);
  }

  // ---- exactly when ----

  predicate HexDigit(c: char) {
    '0' <= c <= '9' || 'a' <= c <= 'f' || 'A' <= c <= 'F'
  }

  /** The line is a digest, 64 hexadecimal digits in either case, and the name. */
  predicate NamesDigest(line: Line, name: string) {
    |line| == 2 && line[1] == name && |line[0]| == 64 && forall i :: 0 <= i < 64 ==> HexDigit(line[0][i])
  }

  /** The first line that names a digest for the program names this one. */
  ghost predicate ListedFirst(lines: seq<Line>, name: string, digest: string) {
    exists i :: 0 <= i < |lines| && NamesDigest(lines[i], name) && ToLower(lines[i][0]) == digest
                && forall j :: 0 <= j < i ==> !NamesDigest(lines[j], name)
  }

  lemma {:induction false} FirstDigestIff(lines: seq<Line>, name: string, digest: string)
    ensures FirstDigest(lines, name) == Some(digest) <==> ListedFirst(lines, name, digest)
  {
    if lines != [] {
      var rest := lines[1..];
      assert Lists(lines[0], name) <==> NamesDigest(lines[0], name);
      hide Lists, NamesDigest, ToLower;
      FirstDigestIff(rest, name, digest);
      if NamesDigest(lines[0], name) {
        if ListedFirst(lines, name, digest) {
          var i :| 0 <= i < |lines| && NamesDigest(lines[i], name) && ToLower(lines[i][0]) == digest
                   && forall j :: 0 <= j < i ==> !NamesDigest(lines[j], name);
          assert i == 0;
        }
      } else {
        if i :| 0 <= i < |lines| && NamesDigest(lines[i], name) && ToLower(lines[i][0]) == digest
                && forall j :: 0 <= j < i ==> !NamesDigest(lines[j], name) {
          assert rest[i - 1] == lines[i];
          assert forall j :: 0 <= j < i - 1 ==> rest[j] == lines[j + 1];
        }
        if i :| 0 <= i < |rest| && NamesDigest(rest[i], name) && ToLower(rest[i][0]) == digest
                && forall j :: 0 <= j < i ==> !NamesDigest(rest[j], name) {
          assert lines[i + 1] == rest[i];
          assert forall j :: 0 < j < i + 1 ==> lines[j] == rest[j - 1];
        }
      }
    }
  }

  /** Nothing goes wrong on the way: both downloads arrive within their limits, and the file can be put in place and run. */
  predicate AllWell(luck: Luck) {
    && luck.checksums.Some? && |luck.checksums.value| <= 1_048_576 && luck.binary.Some? && |luck.binary.value| <= 67_108_864
    && luck.located && luck.created && luck.flushed && luck.executable && luck.ran && luck.renamed
  }

  /**
   * A round replaces the program exactly when the agent is older than the server's release, runs on a supported Linux,
   * nothing goes wrong, the digest of what arrived is the first that the checksums name for the agent's own
   * architecture, and what arrived calls itself that release.
   */
  lemma RoundReplacesIff(w: World, os: string, architecture: string, installed: Program, r: RoundOf)
    ensures Replaces(w, AssetName(os, architecture), installed, r) <==>
              && Compare(w.says(installed), r.latest).Some? && Compare(w.says(installed), r.latest).value < 0
              && os == "linux" && (architecture == "amd64" || architecture == "arm64")
              && AllWell(r.luck)
              && ListedFirst(LinesOf(r.luck.checksums.value), "server-status-agent-linux-" + architecture, w.sha256(r.luck.binary.value))
              && Normalize(TrimSpace(w.says(r.luck.binary.value))) == Normalize(r.latest)
    ensures AfterRound(w, AssetName(os, architecture), installed, r)
            == if Replaces(w, AssetName(os, architecture), installed, r) then r.luck.binary.value else installed
  {
    hide Normalize, Compare, FirstDigest, LinesOf, TrimSpace, ListedFirst;
    var c := Compare(w.says(installed), r.latest);
    if c.Some? {
      NormalCompares(w.says(installed), r.latest);
      if AllWell(r.luck) {
        FirstDigestIff(LinesOf(r.luck.checksums.value), "server-status-agent-linux-" + architecture, w.sha256(r.luck.binary.value));
      }
    }
  }

  /** A version that compares has a normal form, which compares alike. */
  lemma NormalCompares(x: string, version: string)
    requires Compare(x, version).Some?
    ensures Normalize(version).Some? && Compare(x, Normalize(version).value) == Compare(x, version)
  {
    NormalizeKeepsVersion(version);
    hide Parse, TrimSpace, CompareParsed;
    TrimmedIsFixed(Normalize(version).value);
  }

  lemma SameNormalForm(a: string, b: string)
    requires Normalize(a).Some? && Normalize(a) == Normalize(b)
    ensures Parse(TrimSpace(a)) == Parse(TrimSpace(b)) && Parse(TrimSpace(a)).Some?
  {
    NormalizeKeepsVersion(a);
    NormalizeKeepsVersion(b);
  }

  lemma CompareByParsed(a: string, b: string)
    requires Parse(TrimSpace(a)).Some? && Parse(TrimSpace(a)) == Parse(TrimSpace(b))
    ensures Compare(a, b) == Some(0)
  {
    CompareIsPreorder(a, b);
  }

  /** Equal parsed forms compare alike with everything. */
  lemma CompareSame(x: string, a: string, b: string)
    requires Parse(TrimSpace(a)) == Parse(TrimSpace(b))
    ensures Compare(x, a) == Compare(x, b)
  {}

  ghost predicate NotOlder(w: World, a: Program, b: Program) {
    a == b || (Compare(w.says(a), w.says(b)).Some? && Compare(w.says(a), w.says(b)).value < 0)
  }

  lemma NotOlderTransitive(w: World, a: Program, b: Program, c: Program)
    requires NotOlder(w, a, b) && NotOlder(w, b, c)
    ensures NotOlder(w, a, c)
  {
    hide Compare;
    if a != b && b != c {
      CompareTransitive(w.says(a), w.says(b), w.says(c));
    }
  }

  /** Under any sequence of directives and outcomes the installed version only grows, strictly at each replacement. */
  lemma {:induction false} VersionsOnlyGrow(w: World, asset: Option<string>, first: Program, rounds: seq<RoundOf>, i: nat, j: nat)
    requires i <= j <= |rounds|
    ensures NotOlder(w, Installed(w, asset, first, rounds[..i]), Installed(w, asset, first, rounds[..j]))
    ensures i < j && Replaces(w, asset, Installed(w, asset, first, rounds[..i]), rounds[i]) ==>
              Installed(w, asset, first, rounds[..i]) != Installed(w, asset, first, rounds[..j])
    decreases j
  {
    hide AfterRound, Compare;
    if i < j {
      VersionsOnlyGrow(w, asset, first, rounds, i, j - 1);
      assert rounds[..j][..j - 1] == rounds[..j - 1];
      var a, b, c := Installed(w, asset, first, rounds[..i]), Installed(w, asset, first, rounds[..j - 1]), Installed(w, asset, first, rounds[..j]);
      assert c == AfterRound(w, asset, b, rounds[j - 1]);
      hide Installed;
      RoundGrows(w, asset, b, rounds[j - 1]);
      NotOlderTransitive(w, a, b, c);
      if a != b || Replaces(w, asset, b, rounds[j - 1]) {
        NeverBack(w, a, b, c);
      }
    }
  }

  lemma RoundGrows(w: World, asset: Option<string>, installed: Program, r: RoundOf)
    ensures NotOlder(w, installed, AfterRound(w, asset, installed, r))
    ensures Replaces(w, asset, installed, r) ==> AfterRound(w, asset, installed, r) != installed
  {
    if Replaces(w, asset, installed, r) {
      ReplacementIsVerified(w, asset, installed, r);
      hide AfterRound, Replaces, Compare;
      CompareIsPreorder(w.says(installed), w.says(installed));
    }
  }

  lemma NeverBack(w: World, a: Program, b: Program, c: Program)
    requires NotOlder(w, a, b) && NotOlder(w, b, c) && (a != b || b != c)
    ensures a != c
  {
    hide Compare;
    CompareIsPreorder(w.says(a), w.says(b));
    CompareIsPreorder(w.says(b), w.says(c));
  }

  /**
   * While the server stays on one release, the first replacement ends the matter: from then on no receipt carries a
   * directive and nothing is replaced.
   */
  lemma {:induction false} OneReplacementPerRelease(w: World, asset: Option<string>, first: Program, rounds: seq<RoundOf>, i: nat, j: nat)
    requires i < j < |rounds| && forall k :: 0 <= k < |rounds| ==> rounds[k].latest == rounds[i].latest
    requires Replaces(w, asset, Installed(w, asset, first, rounds[..i]), rounds[i])
    ensures Directive(w.says(Installed(w, asset, first, rounds[..j])), rounds[j].latest) == None
    ensures Installed(w, asset, first, rounds[..j]) == Installed(w, asset, first, rounds[..i + 1])
    decreases j
  {
    hide AfterRound, Compare, Replaces, Verdict;
    assert rounds[..i + 1][..i] == rounds[..i] && rounds[..j][..j - 1] == rounds[..j - 1];
    ReplacementIsVerified(w, asset, Installed(w, asset, first, rounds[..i]), rounds[i]);
    if j > i + 1 {
      OneReplacementPerRelease(w, asset, first, rounds, i, j - 1);
      NoDirectiveKeeps(w, asset, Installed(w, asset, first, rounds[..j - 1]), rounds[j - 1]);
    }
  }

  lemma NoDirectiveKeeps(w: World, asset: Option<string>, installed: Program, r: RoundOf)
    requires Directive(w.says(installed), r.latest) == None
    ensures AfterRound(w, asset, installed, r) == installed
  {}
}
