/** Release versions and their order, as the server and the Go agent compute them (internal/version/version.go). */
module Versions {
  import opened Text
  import opened Numbers

  // ---- text pieces ----

  predicate Allowed(c: char) {
    IsDigit(c) || 'A' <= c <= 'Z' || 'a' <= c <= 'z' || c == '.' || c == '-'
  }

  predicate AllAllowed(s: string) {
    forall i :: 0 <= i < |s| ==> Allowed(s[i])
  }

  /** The length of the longest digit prefix. */
  function DigitRun(s: string): (n: nat)
    ensures n <= |s| && AllDigits(s[..n]) && (n < |s| ==> !IsDigit(s[n]))
  {
    if s == "" || !IsDigit(s[0]) then 0
    else
      var n := 1 + DigitRun(s[1..]);
      assert forall i :: 0 < i < n ==> s[i] == s[1..][i - 1];
      n
  }

  /** `strings.Split(s, ".")`. */
  function Split(s: string): (parts: seq<string>)
    ensures parts != []
  {
    if s == "" then [""]
    else
      var n := |s| - 1;
      var earlier := Split(s[..n]);
      if s[n] == '.' then earlier + [""] else earlier[..|earlier| - 1] + [earlier[|earlier| - 1] + [s[n]]]
  }

  function Join(parts: seq<string>): string
    requires parts != []
  {
    if |parts| == 1 then parts[0] else Join(parts[..|parts| - 1]) + "." + parts[|parts| - 1]
  }

  predicate NoDots(parts: seq<string>) {
    forall i, j :: 0 <= i < |parts| && 0 <= j < |parts[i]| ==> parts[i][j] != '.'
  }

  lemma JoinDot(parts: seq<string>)
    requires parts != []
    ensures Join(parts + [""]) == Join(parts) + "."
  {
    assert (parts + [""])[..|parts|] == parts;
  }

  lemma JoinMore(parts: seq<string>, c: char)
    requires parts != []
    ensures Join(parts[..|parts| - 1] + [parts[|parts| - 1] + [c]]) == Join(parts) + [c]
  {
    var m := |parts| - 1;
    var more := parts[..m] + [parts[m] + [c]];
    assert more[..m] == parts[..m] && more[m] == parts[m] + [c];
  }

  lemma {:induction false} SplitHasNoDots(s: string)
    ensures NoDots(Split(s))
  {
    if s != "" {
      SplitHasNoDots(s[..|s| - 1]);
    }
  }

  lemma {:induction false} JoinOfSplit(s: string)
    ensures Join(Split(s)) == s
  {
    if s != "" {
      var n := |s| - 1;
      JoinOfSplit(s[..n]);
      assert s == s[..n] + [s[n]];
      var earlier := Split(s[..n]);
      hide Join;
      if s[n] == '.' {
        JoinDot(earlier);
      } else {
        JoinMore(earlier, s[n]);
      }
    }
  }

  /** Splitting cuts at every dot and loses nothing. */
  lemma {:induction false} SplitJoins(s: string)
    ensures Join(Split(s)) == s && NoDots(Split(s))
  {
    SplitHasNoDots(s);
    JoinOfSplit(s);
  }

  // ---- the pattern ----

  /** The four groups of the release pattern. */
  datatype Groups = Groups(major: string, minor: string, patch: string, prerelease: string)

  ghost predicate MatchesGroups(s: string, g: Groups) {
    && AllDigits(g.major) && g.major != "" && AllDigits(g.minor) && g.minor != "" && AllDigits(g.patch) && g.patch != ""
    && var release := g.major + "." + g.minor + "." + g.patch;
    if g.prerelease == "" then s == release
    else
      && (forall i :: 0 <= i < |g.prerelease| ==>
            var c := g.prerelease[i]; '0' <= c <= '9' || 'A' <= c <= 'Z' || 'a' <= c <= 'z' || c == '.' || c == '-')
      && (s == release + "." + g.prerelease || s == release + "-" + g.prerelease)
  }

  datatype Number = Number(digits: string, rest: string)

  function TakeNumber(s: string): Option<Number> {
    var n := DigitRun(s);
    if n == 0 then None else Some(Number(s[..n], s[n..]))
  }

  function NumberThenDot(s: string): Option<Number> {
    var n := TakeNumber(s);
    if n.Some? && n.value.rest != "" && n.value.rest[0] == '.' then Some(Number(n.value.digits, n.value.rest[1..])) else None
  }

  /** `(?:[.-]([0-9A-Za-z.-]+))?` up to the end. */
  function Tail(s: string): Option<string> {
    if s == "" then Some("")
    else if |s| > 1 && s[0] in {'.', '-'} && AllAllowed(s[1..]) then Some(s[1..])
    else None
  }

  /** `([0-9]+)\.([0-9]+)\.([0-9]+)(?:[.-]([0-9A-Za-z.-]+))?`, anchored at both ends. */
  function MatchRelease(s: string): Option<Groups> {
    var a := NumberThenDot(s);
    if a.None? then None
    else
      var b := NumberThenDot(a.value.rest);
      if b.None? then None
      else
        var c := TakeNumber(b.value.rest);
        if c.None? || Tail(c.value.rest).None? then None
        else Some(Groups(a.value.digits, b.value.digits, c.value.digits, Tail(c.value.rest).value))
  }

  lemma {:induction false} DigitRunOf(d: string, rest: string)
    requires AllDigits(d) && (rest != "" ==> !IsDigit(rest[0]))
    ensures DigitRun(d + rest) == |d|
  {
    if d == "" {
      assert d + rest == rest;
    } else {
      DigitRunOf(d[1..], rest);
      assert (d + rest)[1..] == d[1..] + rest;
    }
  }

  lemma TakeNumberIff(s: string, d: string, rest: string)
    ensures TakeNumber(s) == Some(Number(d, rest))
            <==> AllDigits(d) && d != "" && s == d + rest && (rest != "" ==> !IsDigit(rest[0]))
  {
    if AllDigits(d) && d != "" && s == d + rest && (rest != "" ==> !IsDigit(rest[0])) {
      DigitRunOf(d, rest);
      assert s[..|d|] == d && s[|d|..] == rest;
    }
  }

  lemma NumberThenDotIff(s: string, d: string, rest: string)
    ensures NumberThenDot(s) == Some(Number(d, rest)) <==> AllDigits(d) && d != "" && s == d + ("." + rest)
  {
    hide TakeNumber;
    TakeNumberIff(s, d, "." + rest);
    assert ("." + rest)[1..] == rest;
    if NumberThenDot(s) == Some(Number(d, rest)) {
      var n := TakeNumber(s).value;
      assert n.rest == "." + n.rest[1..];
    }
  }

  /** The characters a prerelease may have. */
  lemma AllAllowedIff(p: string)
    ensures AllAllowed(p) <==> forall i :: 0 <= i < |p| ==>
              var c := p[i]; '0' <= c <= '9' || 'A' <= c <= 'Z' || 'a' <= c <= 'z' || c == '.' || c == '-'
  {}

  lemma TailIff(s: string, p: string)
    ensures Tail(s) == Some(p)
            <==> if p == "" then s == "" else AllAllowed(p) && (s == "." + p || s == "-" + p)
  {
    if s != "" {
      assert s == [s[0]] + s[1..];
    }
    assert ("." + p)[1..] == p && ("-" + p)[1..] == p;
  }

  /** The matcher finds the groups of every text of the pattern's form, and of no other text. */
  lemma MatchReleaseIff(s: string, g: Groups)
    ensures MatchRelease(s) == Some(g) <==> MatchesGroups(s, g)
  {
    if MatchRelease(s) == Some(g) {
      MatchedIsGroups(s, g);
    }
    if MatchesGroups(s, g) {
      GroupsAreMatched(s, g);
    }
  }

  lemma MatchedIsGroups(s: string, g: Groups)
    requires MatchRelease(s) == Some(g)
    ensures MatchesGroups(s, g)
  {
    hide NumberThenDot, TakeNumber, Tail, AllDigits, AllAllowed;
    var minor := NumberThenDot(s).value.rest;
    var patch := NumberThenDot(minor).value.rest;
    var tail := TakeNumber(patch).value.rest;
    NumberThenDotIff(s, g.major, minor);
    NumberThenDotIff(minor, g.minor, patch);
    TakeNumberIff(patch, g.patch, tail);
    TailIff(tail, g.prerelease);
    AllAllowedIff(g.prerelease);
    GroupsTogether(g, minor, patch, tail);
  }

  lemma GroupsAreMatched(s: string, g: Groups)
    requires MatchesGroups(s, g)
    ensures MatchRelease(s) == Some(g)
  {
    hide NumberThenDot, TakeNumber, Tail, AllDigits, AllAllowed;
    var release := g.major + "." + g.minor + "." + g.patch;
    var tail := s[|release|..];
    assert s == release + tail;
    assert if g.prerelease == "" then tail == "" else tail == "." + g.prerelease || tail == "-" + g.prerelease;
    var patch := g.patch + tail;
    var minor := g.minor + ("." + patch);
    GroupsTogether(g, minor, patch, tail);
    NumberThenDotIff(s, g.major, minor);
    NumberThenDotIff(minor, g.minor, patch);
    assert tail != "" ==> !IsDigit(tail[0]);
    TakeNumberIff(patch, g.patch, tail);
    AllAllowedIff(g.prerelease);
    TailIff(tail, g.prerelease);
  }

  lemma GroupsTogether(g: Groups, minor: string, patch: string, tail: string)
    requires minor == g.minor + ("." + patch) && patch == g.patch + tail
    ensures g.major + ("." + minor) == g.major + "." + g.minor + "." + g.patch + tail
  {}

  // ---- parsing ----

  datatype Parsed = Parsed(major: nat, minor: nat, patch: nat, prerelease: seq<string>)

  function StripV(s: string): string {
    if s != "" && s[0] == 'v' then s[1..] else s
  }

  function Parse(s: string): Option<Parsed> {
    var m := MatchRelease(StripV(s));
    if m.None? then None
    else
      MatchReleaseIff(StripV(s), m.value);
      var major, minor, patch := ParseUint(m.value.major), ParseUint(m.value.minor), ParseUint(m.value.patch);
      if major.None? || minor.None? || patch.None? then None
      else Some(Parsed(major.value, minor.value, patch.value, if m.value.prerelease == "" then [] else Split(m.value.prerelease)))
  }

  /** `Normalize`: the trimmed text without its leading `v`. */
  function Normalize(s: string): Option<string> {
    if Parse(TrimSpace(s)).None? then None else Some(StripV(TrimSpace(s)))
  }

  lemma ReleaseStartsWithDigit(s: string)
    requires MatchRelease(s).Some?
    ensures s != "" && IsDigit(s[0])
  {
    hide TakeNumber, Tail;
    var n := NumberThenDot(s).value;
    NumberThenDotIff(s, n.digits, n.rest);
    assert s[0] == n.digits[0];
  }

  /** A normalised version is the same version, starts with a digit, and is already in normal form. */
  lemma NormalizeKeepsVersion(s: string)
    requires Normalize(s).Some?
    ensures var n := Normalize(s).value;
      Trimmed(n) && StripV(n) == n && Parse(n) == Parse(TrimSpace(s)) && Normalize(n) == Some(n)
  {
    hide MatchRelease, ParseUint, Split, TrimSpace;
    var t := TrimSpace(s);
    var n := StripV(t);
    ReleaseStartsWithDigit(n);
    assert StripV(n) == n && Parse(n) == Parse(t);
    hide Parse;
    assert t != "" && n[|n| - 1] == t[|t| - 1];
    TrimmedIsFixed(n);
  }

  // ---- the texts of a version ----

  /** The text, or what follows its leading `v`, has the form of a release with these groups. */
  ghost predicate Spells(s: string, g: Groups) {
    MatchesGroups(s, g) || exists t :: s == "v" + t && MatchesGroups(t, g)
  }

  ghost predicate NumbersFit(g: Groups, bound: nat)
    requires AllDigits(g.major) && AllDigits(g.minor) && AllDigits(g.patch)
  {
    Value(g.major) < bound && Value(g.minor) < bound && Value(g.patch) < bound
  }

  function PrereleaseOf(g: Groups): seq<string> {
    if g.prerelease == "" then [] else Split(g.prerelease)
  }

  lemma GroupsStartWithDigit(s: string, g: Groups)
    requires MatchesGroups(s, g)
    ensures s != "" && IsDigit(s[0])
  {
    assert s[0] == g.major[0];
  }

  /** A text spells at most one release, the one that is matched after its leading `v`. */
  lemma SpellsIff(s: string, g: Groups)
    ensures Spells(s, g) <==> MatchRelease(StripV(s)) == Some(g)
  {
    hide MatchRelease, MatchesGroups;
    MatchReleaseIff(StripV(s), g);
    if MatchesGroups(s, g) {
      GroupsStartWithDigit(s, g);
      assert StripV(s) == s;
    } else if t :| s == "v" + t && MatchesGroups(t, g) {
      assert StripV(s) == t;
    }
    if MatchesGroups(StripV(s), g) && StripV(s) != s {
      assert s == "v" + s[1..];
    }
  }

  /**
   * A text is a version exactly when it spells a release, with or without a leading `v`, whose three numbers fit
   * 64 bits; then it is read as those numbers and the identifiers between the dots of its prerelease.
   */
  lemma ParseIff(s: string, p: Parsed)
    ensures Parse(s) == Some(p) <==>
              exists g :: Spells(s, g) && AllDigits(g.major) && AllDigits(g.minor) && AllDigits(g.patch) && NumbersFit(g, TWO_64)
                          && p == Parsed(Value(g.major), Value(g.minor), Value(g.patch), PrereleaseOf(g))
  {
    hide MatchRelease, Split, Value, Spells, StripV;
    if Parse(s) == Some(p) {
      var g := MatchRelease(StripV(s)).value;
      MatchReleaseIff(StripV(s), g);
      SpellsIff(s, g);
    }
    if g :| Spells(s, g) && AllDigits(g.major) && AllDigits(g.minor) && AllDigits(g.patch) && NumbersFit(g, TWO_64)
            && p == Parsed(Value(g.major), Value(g.minor), Value(g.patch), PrereleaseOf(g)) {
      SpellsIff(s, g);
      MatchReleaseIff(StripV(s), g);
    }
  }

  /** Normalising drops the blanks around a version and its `v`, and nothing else. */
  lemma NormalizeIff(s: string, n: string)
    ensures Normalize(s) == Some(n) <==>
              && (TrimSpace(s) == n || TrimSpace(s) == "v" + n) && n != "" && IsDigit(n[0])
              && Parse(TrimSpace(s)).Some?
  {
    hide MatchRelease, TrimSpace;
    var t := TrimSpace(s);
    if Parse(t).Some? {
      ReleaseStartsWithDigit(StripV(t));
      hide Parse;
      if t[0] == 'v' {
        assert t == "v" + t[1..];
      }
    }
  }

  // ---- comparing ----

  /** A prerelease identifier as a number, when it is digits only and fits 64 bits. */
  function Numeric(id: string): Option<nat> {
    ParseUint(id)
  }

  function CompareText(a: string, b: string): int {
    if Less(a, b) then -1 else if Less(b, a) then 1 else 0
  }

  function CompareNumber(a: nat, b: nat): int {
    if a < b then -1 else if a > b then 1 else 0
  }

  function CompareIdentifier(a: string, b: string): int {
    var m, n := Numeric(a), Numeric(b);
    if m.Some? && n.Some? && m.value != n.value then CompareNumber(m.value, n.value)
    else if m.Some? && n.None? then -1
    else if m.None? && n.Some? then 1
    else CompareText(a, b)
  }

  function CompareLists(a: seq<string>, b: seq<string>): int {
    if a == [] || b == [] then CompareNumber(|a|, |b|)
    else if CompareIdentifier(a[0], b[0]) != 0 then CompareIdentifier(a[0], b[0])
    else CompareLists(a[1..], b[1..])
  }

  /** A release comes after its prereleases. */
  function ComparePrerelease(a: seq<string>, b: seq<string>): int {
    if a == [] && b == [] then 0
    else if a == [] then 1
    else if b == [] then -1
    else CompareLists(a, b)
  }

  function CompareParsed(a: Parsed, b: Parsed): int {
    if a.major != b.major then CompareNumber(a.major, b.major)
    else if a.minor != b.minor then CompareNumber(a.minor, b.minor)
    else if a.patch != b.patch then CompareNumber(a.patch, b.patch)
    else ComparePrerelease(a.prerelease, b.prerelease)
  }

  function Compare(left: string, right: string): Option<int> {
    var a, b := Parse(TrimSpace(left)), Parse(TrimSpace(right));
    if a.None? || b.None? then None else Some(CompareParsed(a.value, b.value))
  }

  // ---- the loops ----

  method NumericIdentifier(value: string) returns (n: Option<nat>)
    ensures n == Numeric(value)
  {
    if value == "" {
      return None;
    }
    for i := 0 to |value|
      invariant AllDigits(value[..i])
    {
      if !IsDigit(value[i]) {
        return None;
      }
    }
    assert value[..|value|] == value;
    n := if Value(value) < TWO_64 then Some(Value(value)) else None;
  }

  method ComparePrereleaseLists(left: seq<string>, right: seq<string>) returns (r: int)
    ensures r == ComparePrerelease(left, right)
  {
    hide Numeric, Less;
    if left == [] && right == [] {
      return 0;
    }
    if left == [] {
      return 1;
    }
    if right == [] {
      return -1;
    }
    var limit := if |left| <= |right| then |left| else |right|;
    for i := 0 to limit
      invariant CompareLists(left, right) == CompareLists(left[i..], right[i..])
    {
      assert left[i..][0] == left[i] && right[i..][0] == right[i] && left[i..][1..] == left[i + 1..] && right[i..][1..] == right[i + 1..];
      var m := NumericIdentifier(left[i]);
      var n := NumericIdentifier(right[i]);
      if m.Some? && n.Some? && m.value < n.value {
        return -1;
      } else if m.Some? && n.Some? && m.value > n.value {
        return 1;
      } else if m.Some? && n.None? {
        return -1;
      } else if m.None? && n.Some? {
        return 1;
      } else if Less(left[i], right[i]) {
        return -1;
      } else if Less(right[i], left[i]) {
        return 1;
      }
    }
    r := if |left| < |right| then -1 else if |left| > |right| then 1 else 0;
  }

  method CompareVersions(left: string, right: string) returns (r: Option<int>)
    ensures r == Compare(left, right)
  {
    hide Parse, ComparePrerelease;
    var a, b := Parse(TrimSpace(left)), Parse(TrimSpace(right));
    if a.None? || b.None? {
      return None;
    }
    var x, y := [a.value.major, a.value.minor, a.value.patch], [b.value.major, b.value.minor, b.value.patch];
    for i := 0 to 3
      invariant forall j :: 0 <= j < i ==> x[j] == y[j]
    {
      assert (i > 0 ==> x[0] == y[0]) && (i > 1 ==> x[1] == y[1]);
      if x[i] < y[i] {
        return Some(-1);
      }
      if x[i] > y[i] {
        return Some(1);
      }
    }
    assert x[0] == y[0] && x[1] == y[1] && x[2] == y[2];
    var c := ComparePrereleaseLists(a.value.prerelease, b.value.prerelease);
    r := Some(c);
  }

  // ---- a total preorder ----

  lemma IdentifierOrder(a: string, b: string)
    ensures CompareIdentifier(a, b) == -CompareIdentifier(b, a)
    ensures CompareIdentifier(a, b) == 0 <==> a == b
  {
    LessTrichotomy(a, b);
    LessIrreflexive(a);
  }

  lemma IdentifierTransitive(a: string, b: string, c: string)
    requires CompareIdentifier(a, b) < 0 && CompareIdentifier(b, c) < 0
    ensures CompareIdentifier(a, c) < 0
  {
    LessTrichotomy(a, c);
    if Less(a, b) && Less(b, c) {
      LessTransitive(a, b, c);
    }
  }

  lemma {:induction false} ListsOrder(a: seq<string>, b: seq<string>)
    ensures CompareLists(a, b) == -CompareLists(b, a)
    ensures CompareLists(a, b) == 0 <==> a == b
  {
    if a != [] && b != [] {
      IdentifierOrder(a[0], b[0]);
      ListsOrder(a[1..], b[1..]);
      assert a == [a[0]] + a[1..] && b == [b[0]] + b[1..];
    }
  }

  lemma {:induction false} ListsTransitive(a: seq<string>, b: seq<string>, c: seq<string>)
    requires CompareLists(a, b) < 0 && CompareLists(b, c) < 0
    ensures CompareLists(a, c) < 0
  {
    hide CompareIdentifier;
    if a != [] && b != [] && c != [] {
      IdentifierOrder(a[0], b[0]);
      IdentifierOrder(b[0], c[0]);
      IdentifierOrder(a[0], c[0]);
      if CompareIdentifier(a[0], b[0]) < 0 && CompareIdentifier(b[0], c[0]) < 0 {
        IdentifierTransitive(a[0], b[0], c[0]);
      } else if a[0] == b[0] == c[0] {
        ListsTransitive(a[1..], b[1..], c[1..]);
      }
    }
  }

  lemma ParsedOrder(a: Parsed, b: Parsed)
    ensures CompareParsed(a, b) == -CompareParsed(b, a)
    ensures CompareParsed(a, b) == 0 <==> a == b
  {
    ListsOrder(a.prerelease, b.prerelease);
  }

  lemma ParsedTransitive(a: Parsed, b: Parsed, c: Parsed)
    requires CompareParsed(a, b) < 0 && CompareParsed(b, c) < 0
    ensures CompareParsed(a, c) < 0
  {
    hide CompareLists;
    if a.prerelease != [] && b.prerelease != [] && c.prerelease != []
       && CompareLists(a.prerelease, b.prerelease) < 0 && CompareLists(b.prerelease, c.prerelease) < 0 {
      ListsTransitive(a.prerelease, b.prerelease, c.prerelease);
    }
  }

  /** The order on version texts: total where both parse, antisymmetric in sign, zero exactly on equal parsed forms. */
  lemma CompareIsPreorder(a: string, b: string)
    ensures Compare(a, b).Some? <==> Parse(TrimSpace(a)).Some? && Parse(TrimSpace(b)).Some?
    ensures Compare(a, b).Some? ==> Compare(b, a) == Some(-Compare(a, b).value) && Compare(a, b).value in {-1, 0, 1}
    ensures Compare(a, b) == Some(0) <==> Parse(TrimSpace(a)).Some? && Parse(TrimSpace(a)) == Parse(TrimSpace(b))
  {
    hide Parse;
    if Compare(a, b).Some? {
      ParsedOrder(Parse(TrimSpace(a)).value, Parse(TrimSpace(b)).value);
      SignOf(Parse(TrimSpace(a)).value, Parse(TrimSpace(b)).value);
    }
  }

  lemma {:induction false} ListSign(a: seq<string>, b: seq<string>)
    ensures CompareLists(a, b) in {-1, 0, 1}
  {
    hide Numeric, Less;
    if a != [] && b != [] {
      ListSign(a[1..], b[1..]);
    }
  }

  lemma SignOf(a: Parsed, b: Parsed)
    ensures CompareParsed(a, b) in {-1, 0, 1}
  {
    ListSign(a.prerelease, b.prerelease);
  }

  lemma CompareTransitive(a: string, b: string, c: string)
    requires Compare(a, b).Some? && Compare(b, c).Some? && Compare(a, b).value <= 0 && Compare(b, c).value <= 0
    ensures Compare(a, c).Some? && Compare(a, c).value <= 0
    ensures Compare(a, c).value == 0 <==> Compare(a, b).value == 0 && Compare(b, c).value == 0
  {
    hide Parse, CompareParsed;
    var x, y, z := Parse(TrimSpace(a)).value, Parse(TrimSpace(b)).value, Parse(TrimSpace(c)).value;
    ParsedOrder(x, y);
    ParsedOrder(y, z);
    ParsedOrder(x, z);
    if CompareParsed(x, y) < 0 && CompareParsed(y, z) < 0 {
      ParsedTransitive(x, y, z);
    }
  }

  // ---- Semantic Versioning 2.0.0, section 11 ----

  ghost predicate IdentifierPrecedes(a: string, b: string) {
    if AllDigits(a) && AllDigits(b) then Value(a) < Value(b)
    else if AllDigits(a) then true
    else if AllDigits(b) then false
    else Less(a, b)
  }

  /** The first difference decides; with none, the shorter list precedes. */
  ghost predicate IdentifiersPrecede(a: seq<string>, b: seq<string>) {
    exists i :: 0 <= i <= |a| && i <= |b| && a[..i] == b[..i] && DecidedAt(a, b, i)
  }

  ghost predicate DecidedAt(a: seq<string>, b: seq<string>, i: nat)
    requires i <= |a| && i <= |b|
  {
    if i < |a| && i < |b| then IdentifierPrecedes(a[i], b[i]) else i == |a| < |b|
  }

  ghost predicate Precedes(a: Parsed, b: Parsed) {
    if (a.major, a.minor, a.patch) != (b.major, b.minor, b.patch)
    then a.major < b.major || (a.major == b.major && (a.minor < b.minor || (a.minor == b.minor && a.patch < b.patch)))
    else if a.prerelease == [] then false
    else if b.prerelease == [] then true
    else IdentifiersPrecede(a.prerelease, b.prerelease)
  }

  /** Section 9: not empty; a numeric identifier has no leading zero. Numbers are below 2^64. */
  ghost predicate Proper(id: string) {
    id != "" && (AllDigits(id) ==> Value(id) < TWO_64 && (id[0] == '0' ==> |id| == 1))
  }

  ghost predicate AllProper(ids: seq<string>) {
    forall i :: 0 <= i < |ids| ==> Proper(ids[i])
  }

  lemma {:induction false} ValueBounds(d: string)
    requires AllDigits(d) && d != "" && d[0] != '0'
    ensures Value(d) > 0 && Value(d) >= |d|
  {
    var n := |d| - 1;
    if n > 0 {
      assert d[..n][0] == d[0];
      ValueBounds(d[..n]);
    }
  }

  /** Without leading zeros a number has one text. */
  lemma {:induction false} ValueInjective(a: string, b: string)
    requires AllDigits(a) && AllDigits(b) && Proper(a) && Proper(b) && Value(a) == Value(b)
    ensures a == b
    decreases |a|
  {
    var m, n := |a| - 1, |b| - 1;
    var p, q := a[..m], b[..n];
    assert a == p + [a[m]] && b == q + [b[n]];
    var x, y := a[m] as int - '0' as int, b[n] as int - '0' as int;
    assert Value(p) * 10 + x == Value(q) * 10 + y && 0 <= x < 10 && 0 <= y < 10;
    assert Value(p) == Value(q) && x == y;
    if p != "" && q != "" {
      assert p[0] == a[0] && q[0] == b[0];
      ValueInjective(p, q);
    } else if p != "" {
      assert p[0] == a[0];
      ValueBounds(p);
    } else if q != "" {
      assert q[0] == b[0];
      ValueBounds(q);
    }
  }

  lemma IdentifierMatchesSemVer(a: string, b: string)
    requires Proper(a) && Proper(b)
    ensures CompareIdentifier(a, b) < 0 <==> IdentifierPrecedes(a, b)
  {
    if AllDigits(a) && AllDigits(b) && Value(a) == Value(b) {
      ValueInjective(a, b);
      LessIrreflexive(a);
    }
  }

  lemma {:induction false} ListsMatchSemVer(a: seq<string>, b: seq<string>)
    requires AllProper(a) && AllProper(b)
    ensures CompareLists(a, b) < 0 <==> IdentifiersPrecede(a, b)
  {
    hide CompareIdentifier, IdentifierPrecedes, Proper;
    if a == [] || b == [] {
      assert a[..0] == b[..0];
      assert CompareLists(a, b) < 0 ==> DecidedAt(a, b, 0);
    } else {
      var p, q := a[1..], b[1..];
      ListsMatchSemVer(p, q);
      IdentifierMatchesSemVer(a[0], b[0]);
      IdentifierOrder(a[0], b[0]);
      if CompareIdentifier(a[0], b[0]) < 0 {
        assert a[..0] == b[..0] && DecidedAt(a, b, 0);
      } else if a[0] == b[0] {
        if i :| 0 <= i <= |p| && i <= |q| && p[..i] == q[..i] && DecidedAt(p, q, i) {
          assert a[..i + 1] == [a[0]] + p[..i] && b[..i + 1] == [b[0]] + q[..i];
          assert DecidedAt(a, b, i + 1);
        }
        if i :| 0 <= i <= |a| && i <= |b| && a[..i] == b[..i] && DecidedAt(a, b, i) {
          NotDecidedByEqual(a, b);
          assert p[..i - 1] == a[..i][1..] && q[..i - 1] == b[..i][1..];
          assert DecidedAt(p, q, i - 1);
        }
      } else {
        NotDecidedLater(a, b);
      }
    }
  }

  lemma NotDecidedByEqual(a: seq<string>, b: seq<string>)
    requires a != [] && b != [] && a[0] == b[0]
    ensures !DecidedAt(a, b, 0)
  {
    LessIrreflexive(a[0]);
  }

  lemma NotDecidedLater(a: seq<string>, b: seq<string>)
    requires a != [] && b != [] && a[0] != b[0] && !IdentifierPrecedes(a[0], b[0])
    ensures !IdentifiersPrecede(a, b)
  {
    forall i | 0 < i <= |a| && i <= |b| ensures a[..i] != b[..i] {
      assert a[..i][0] != b[..i][0];
    }
  }

  lemma ParsedMatchesSemVer(a: Parsed, b: Parsed)
    requires AllProper(a.prerelease) && AllProper(b.prerelease)
    ensures CompareParsed(a, b) < 0 <==> Precedes(a, b)
  {
    hide IdentifiersPrecede, CompareLists, AllProper;
    ListsMatchSemVer(a.prerelease, b.prerelease);
  }

  /** `Compare` is the precedence of section 11 of Semantic Versioning 2.0.0 on identifiers it allows, below 2^64. */
  lemma CompareMatchesSemVer(left: string, right: string, a: Parsed, b: Parsed)
    requires Parse(TrimSpace(left)) == Some(a) && Parse(TrimSpace(right)) == Some(b)
    requires AllProper(a.prerelease) && AllProper(b.prerelease)
    ensures Compare(left, right) == Some(if Precedes(a, b) then -1 else if Precedes(b, a) then 1 else 0)
  {
    hide Parse, CompareParsed, Precedes, AllProper, TrimSpace;
    ParsedOrder(a, b);
    SignOf(a, b);
    ParsedMatchesSemVer(a, b);
    ParsedMatchesSemVer(b, a);
  }
}
