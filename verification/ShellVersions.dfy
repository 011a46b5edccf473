/** The macOS agent's own version test (macos-agent/server-status-agent:682-727), and why it agrees with `Compare`. */
module ShellVersions {
  import opened Text
  import opened Numbers
  import opened Versions

  /** `${(s:.:)text}` in an array assignment: the pieces between dots, empty ones dropped. */
  function Pieces(s: string): seq<string> {
    NonEmpty(Split(s))
  }

  function NonEmpty(parts: seq<string>): (r: seq<string>)
    ensures forall i :: 0 <= i < |r| ==> r[i] != ""
  {
    if parts == [] then []
    else (if parts[0] != "" then [parts[0]] else []) + NonEmpty(parts[1..])
  }

  /** The pattern `<->`. */
  predicate Number?(s: string) { s != "" && AllDigits(s) }

  /** The identifier loop and the length test after it. */
  function NewerPieces(current: seq<string>, target: seq<string>): bool {
    if current == [] || target == [] then |target| > |current|
    else
      var c, t := current[0], target[0];
      if Number?(c) && Number?(t) then
        Value(t) > Value(c) || (Value(t) == Value(c) && NewerPieces(current[1..], target[1..]))
      else if Number?(c) then true
      else if Number?(t) then false
      else Less(c, t) || (!Less(t, c) && NewerPieces(current[1..], target[1..]))
  }

  function NewerGroups(current: Groups, target: Groups): bool
    requires MatchesNumbers(current) && MatchesNumbers(target)
  {
    if Value(target.major) != Value(current.major) then Value(target.major) > Value(current.major)
    else if Value(target.minor) != Value(current.minor) then Value(target.minor) > Value(current.minor)
    else if Value(target.patch) != Value(current.patch) then Value(target.patch) > Value(current.patch)
    else if current.prerelease == "" then false
    else if target.prerelease == "" then true
    else NewerPieces(Pieces(current.prerelease), Pieces(target.prerelease))
  }

  predicate MatchesNumbers(g: Groups) {
    AllDigits(g.major) && AllDigits(g.minor) && AllDigits(g.patch)
  }

  lemma MatchedNumbers(s: string)
    ensures MatchRelease(s).Some? ==> MatchesNumbers(MatchRelease(s).value) && MatchesGroups(s, MatchRelease(s).value)
  {
    if MatchRelease(s).Some? {
      MatchReleaseIff(s, MatchRelease(s).value);
    }
  }

  function Newer(current: string, target: string): bool {
    var c, t := MatchRelease(StripV(current)), MatchRelease(StripV(target));
    MatchedNumbers(StripV(current));
    MatchedNumbers(StripV(target));
    c.Some? && t.Some? && NewerGroups(c.value, t.value)
  }

  /** The shell reads a version after an optional `v` too, and calls nothing newer that is not one. */
  lemma NewerIff(current: string, target: string)
    ensures Newer(current, target) <==>
              exists c, t :: Spells(current, c) && Spells(target, t) && MatchesNumbers(c) && MatchesNumbers(t) && NewerGroups(c, t)
  {
    hide MatchRelease, NewerGroups, Spells, StripV, AllDigits;
    if Newer(current, target) {
      var c, t := MatchRelease(StripV(current)).value, MatchRelease(StripV(target)).value;
      MatchedNumbers(StripV(current));
      MatchedNumbers(StripV(target));
      SpellsIff(current, c);
      SpellsIff(target, t);
    }
    if c, t :| Spells(current, c) && Spells(target, t) && MatchesNumbers(c) && MatchesNumbers(t) && NewerGroups(c, t) {
      SpellsIff(current, c);
      SpellsIff(target, t);
    }
  }

  /** The shell function, with its early returns and its one-based index loops. */
  method VersionIsNewer(current: string, target: string) returns (newer: bool)
    ensures newer == Newer(current, target)
  {
    hide MatchRelease, Split, NonEmpty, Less;
    var c, t := MatchRelease(StripV(current)), MatchRelease(StripV(target));
    MatchedNumbers(StripV(current));
    MatchedNumbers(StripV(target));
    if c.None? || t.None? {
      return false;
    }
    for index := 1 to 4
      invariant index > 1 ==> Value(t.value.major) == Value(c.value.major)
      invariant index > 2 ==> Value(t.value.minor) == Value(c.value.minor)
      invariant index > 3 ==> Value(t.value.patch) == Value(c.value.patch)
    {
      var currentNumber := if index == 1 then c.value.major else if index == 2 then c.value.minor else c.value.patch;
      var targetNumber := if index == 1 then t.value.major else if index == 2 then t.value.minor else t.value.patch;
      if Value(targetNumber) > Value(currentNumber) {
        return true;
      }
      if Value(targetNumber) < Value(currentNumber) {
        return false;
      }
    }
    if c.value.prerelease == "" {
      return false;
    }
    if t.value.prerelease == "" {
      return true;
    }
    var currentParts, targetParts := Pieces(c.value.prerelease), Pieces(t.value.prerelease);
    var limit := if |currentParts| < |targetParts| then |currentParts| else |targetParts|;
    for index := 1 to limit + 1
      invariant NewerPieces(currentParts, targetParts) == NewerPieces(currentParts[index - 1..], targetParts[index - 1..])
    {
      var currentPart, targetPart := currentParts[index - 1], targetParts[index - 1];
      assert currentParts[index - 1..][1..] == currentParts[index..] && targetParts[index - 1..][1..] == targetParts[index..];
      if Number?(currentPart) && Number?(targetPart) {
        if Value(targetPart) > Value(currentPart) {
          return true;
        }
        if Value(targetPart) < Value(currentPart) {
          return false;
        }
      } else if Number?(currentPart) {
        return true;
      } else if Number?(targetPart) {
        return false;
      } else {
        if Less(currentPart, targetPart) {
          return true;
        }
        if Less(targetPart, currentPart) {
          return false;
        }
      }
    }
    return |targetParts| > |currentParts|;
  }

  // ---- agreement ----

  /** Shell arithmetic is exact below 2^63. */
  ghost predicate PlainIdentifier(id: string) {
    Proper(id) && (AllDigits(id) ==> Value(id) < TWO_63)
  }

  /** No surrounding blanks, no empty or leading-zero identifier, numbers below 2^63. */
  ghost predicate Plain(s: string) {
    && Trimmed(s)
    && var g := MatchRelease(StripV(s));
    g.Some? && MatchesNumbers(g.value) ==>
      && Value(g.value.major) < TWO_63 && Value(g.value.minor) < TWO_63 && Value(g.value.patch) < TWO_63
      && (g.value.prerelease != "" ==> forall id :: id in Split(g.value.prerelease) ==> PlainIdentifier(id))
  }

  lemma {:induction false} NothingDropped(parts: seq<string>)
    requires forall id :: id in parts ==> id != ""
    ensures NonEmpty(parts) == parts
  {
    if parts != [] {
      assert parts == [parts[0]] + parts[1..];
      assert parts[0] in parts && forall id :: id in parts[1..] ==> id in parts;
      NothingDropped(parts[1..]);
    }
  }

  lemma {:induction false} PiecesAgree(current: seq<string>, target: seq<string>)
    requires AllProper(current) && AllProper(target)
    ensures NewerPieces(current, target) <==> CompareLists(current, target) < 0
  {
    if current != [] && target != [] {
      var c, t := current[0], target[0];
      assert Proper(c) && Proper(t);
      LessTrichotomy(c, t);
      if Number?(c) && Number?(t) && Value(c) == Value(t) {
        ValueInjective(c, t);
      }
      PiecesAgree(current[1..], target[1..]);
    }
  }

  lemma ProperParts(prerelease: string)
    requires forall id :: id in Split(prerelease) ==> PlainIdentifier(id)
    ensures AllProper(Split(prerelease)) && Pieces(prerelease) == Split(prerelease)
  {
    NothingDropped(Split(prerelease));
    var parts := Split(prerelease);
    forall i | 0 <= i < |parts| ensures Proper(parts[i]) {
      assert parts[i] in parts;
    }
  }

  lemma PlainParses(s: string, g: Groups)
    requires Plain(s) && MatchRelease(StripV(s)) == Some(g)
    ensures MatchesNumbers(g)
    ensures Parse(TrimSpace(s)) == Some(Parsed(Value(g.major), Value(g.minor), Value(g.patch), if g.prerelease == "" then [] else Split(g.prerelease)))
  {
    hide MatchRelease, Split, Value;
    TrimmedIsFixed(s);
    MatchedNumbers(StripV(s));
  }

  lemma PlainGroups(s: string, g: Groups)
    requires Plain(s) && MatchRelease(StripV(s)) == Some(g) && g.prerelease != ""
    ensures AllProper(Split(g.prerelease)) && Pieces(g.prerelease) == Split(g.prerelease)
  {
    hide MatchRelease, Split, Value, PlainIdentifier, AllProper, Pieces;
    MatchedNumbers(StripV(s));
    ProperParts(g.prerelease);
  }

  lemma NotReleaseParses(s: string)
    requires Plain(s) && MatchRelease(StripV(s)).None?
    ensures Parse(TrimSpace(s)) == None
  {
    TrimmedIsFixed(s);
  }

  /** The shell calls a version newer exactly when the Go comparison does. */
  lemma ShellAgrees(current: string, target: string)
    requires Plain(current) && Plain(target)
    ensures Newer(current, target) <==> Compare(current, target).Some? && Compare(current, target).value < 0
  {
    hide Split, Pieces, CompareLists, NewerPieces, MatchRelease, Value, TrimSpace, Parse, Plain, StripV, AllProper;
    var c, t := MatchRelease(StripV(current)), MatchRelease(StripV(target));
    if c.None? {
      NotReleaseParses(current);
    } else if t.None? {
      NotReleaseParses(target);
    } else {
      PlainParses(current, c.value);
      PlainParses(target, t.value);
      if c.value.prerelease != "" && t.value.prerelease != "" {
        PlainGroups(current, c.value);
        PlainGroups(target, t.value);
        PiecesAgree(Split(c.value.prerelease), Split(t.value.prerelease));
      }
    }
  }

  // ---- leading zeros ----

  /** Not empty, and exact in shell arithmetic; leading zeros are allowed. */
  ghost predicate Readable(id: string) {
    id != "" && (AllDigits(id) ==> Value(id) < TWO_63)
  }

  ghost predicate AllReadable(ids: seq<string>) {
    forall i :: 0 <= i < |ids| ==> Readable(ids[i])
  }

  function StripZeros(digits: string): (r: string)
    requires digits != ""
    ensures r != "" && (AllDigits(digits) ==> AllDigits(r))
  {
    if |digits| > 1 && digits[0] == '0' then StripZeros(digits[1..]) else digits
  }

  /** A number in its one spelling without leading zeros; any other identifier as it is. */
  function Unpad(id: string): string {
    if Number?(id) then StripZeros(id) else id
  }

  function Unpadded(ids: seq<string>): (r: seq<string>)
    ensures |r| == |ids|
  {
    if ids == [] then [] else [Unpad(ids[0])] + Unpadded(ids[1..])
  }

  lemma {:induction false} LeadingZeroIsNothing(digits: string)
    requires AllDigits(digits) && digits != "" && digits[0] == '0'
    ensures Value(digits) == Value(digits[1..])
  {
    var n := |digits| - 1;
    if n > 0 {
      LeadingZeroIsNothing(digits[..n]);
      assert digits[1..][..n - 1] == digits[..n][1..];
    }
  }

  lemma {:induction false} StripKeepsValue(digits: string)
    requires Number?(digits)
    ensures Value(StripZeros(digits)) == Value(digits)
    ensures StripZeros(digits)[0] == '0' ==> |StripZeros(digits)| == 1
  {
    if |digits| > 1 && digits[0] == '0' {
      LeadingZeroIsNothing(digits);
      StripKeepsValue(digits[1..]);
    }
  }

  lemma {:induction false} UnpaddedIsProper(ids: seq<string>)
    requires AllReadable(ids)
    ensures AllProper(Unpadded(ids))
  {
    if ids != [] {
      UnpaddedIsProper(ids[1..]);
      if Number?(ids[0]) {
        StripKeepsValue(ids[0]);
      }
    }
  }

  lemma {:induction false} PaddingIsInvisible(current: seq<string>, target: seq<string>)
    ensures NewerPieces(Unpadded(current), Unpadded(target)) <==> NewerPieces(current, target)
  {
    if current != [] && target != [] {
      if Number?(current[0]) {
        StripKeepsValue(current[0]);
      }
      if Number?(target[0]) {
        StripKeepsValue(target[0]);
      }
      PaddingIsInvisible(current[1..], target[1..]);
    }
  }

  /** The shell's order of identifiers is Go's order of the same identifiers without their leading zeros. */
  lemma ShellIgnoresPadding(current: seq<string>, target: seq<string>)
    requires AllReadable(current) && AllReadable(target)
    ensures NewerPieces(current, target) <==> CompareLists(Unpadded(current), Unpadded(target)) < 0
  {
    UnpaddedIsProper(current);
    UnpaddedIsProper(target);
    PiecesAgree(Unpadded(current), Unpadded(target));
    PaddingIsInvisible(current, target);
  }

  /** Two texts of one number. */
  ghost predicate Respelled(a: string, b: string) {
    a != b && Number?(a) && Number?(b) && Value(a) == Value(b)
  }

  /** The first position where the texts differ, or the end of the shorter list. */
  function FirstDifference(a: seq<string>, b: seq<string>): (i: nat)
    ensures i <= |a| && i <= |b|
    ensures a[..i] == b[..i] && (i < |a| && i < |b| ==> a[i] != b[i])
  {
    if a == [] || b == [] || a[0] != b[0] then 0
    else
      var n := FirstDifference(a[1..], b[1..]);
      assert a[..n + 1] == [a[0]] + a[1..][..n] && b[..n + 1] == [b[0]] + b[1..][..n];
      n + 1
  }

  /**
   * Where the first difference is two spellings of one number, Go decides by their text and the shell by what
   * follows them, so the two must happen to say the same.
   */
  ghost predicate SameVerdict(current: seq<string>, target: seq<string>) {
    var i := FirstDifference(current, target);
    i < |current| && i < |target| && Respelled(current[i], target[i]) ==>
      (Less(current[i], target[i]) <==> CompareLists(Unpadded(current[i + 1..]), Unpadded(target[i + 1..])) < 0)
  }

  /** The two orders of identifiers agree exactly when `SameVerdict`. */
  lemma {:induction false} IdentifiersAgreeIff(current: seq<string>, target: seq<string>)
    requires AllReadable(current) && AllReadable(target)
    ensures (NewerPieces(current, target) <==> CompareLists(current, target) < 0) <==> SameVerdict(current, target)
  {
    if current != [] && target != [] {
      var c, t := current[0], target[0];
      assert Readable(c) && Readable(t);
      LessTrichotomy(c, t);
      if c == t {
        IdentifierOrder(c, t);
        IdentifiersAgreeIff(current[1..], target[1..]);
        var n := FirstDifference(current[1..], target[1..]);
        assert FirstDifference(current, target) == n + 1;
        if n + 1 < |current| && n + 1 < |target| {
          assert current[1..][n + 1..] == current[n + 2..] && target[1..][n + 1..] == target[n + 2..];
        }
      } else {
        assert FirstDifference(current, target) == 0;
        ShellIgnoresPadding(current[1..], target[1..]);
      }
    }
  }

  /** No surrounding blanks, no empty identifier, numbers below 2^63. */
  ghost predicate ReadableVersion(s: string) {
    && Trimmed(s)
    && var g := MatchRelease(StripV(s));
    g.Some? && MatchesNumbers(g.value) ==>
      && Value(g.value.major) < TWO_63 && Value(g.value.minor) < TWO_63 && Value(g.value.patch) < TWO_63
      && (g.value.prerelease != "" ==> AllReadable(Split(g.value.prerelease)))
  }

  /** The versions differ in nothing but their prereleases, and both have one. */
  ghost predicate DecidedByPrerelease(c: Groups, t: Groups)
    requires MatchesNumbers(c) && MatchesNumbers(t)
  {
    && Value(c.major) == Value(t.major) && Value(c.minor) == Value(t.minor) && Value(c.patch) == Value(t.patch)
    && c.prerelease != "" && t.prerelease != ""
  }

  lemma ReadableParses(s: string, g: Groups)
    requires ReadableVersion(s) && MatchRelease(StripV(s)) == Some(g)
    ensures MatchesNumbers(g) && (g.prerelease != "" ==> AllReadable(Split(g.prerelease)) && Pieces(g.prerelease) == Split(g.prerelease))
    ensures Parse(TrimSpace(s)) == Some(Parsed(Value(g.major), Value(g.minor), Value(g.patch), if g.prerelease == "" then [] else Split(g.prerelease)))
  {
    hide MatchRelease, Split, Value;
    TrimmedIsFixed(s);
    MatchedNumbers(StripV(s));
    if g.prerelease != "" {
      NothingDropped(Split(g.prerelease));
    }
  }

  lemma UnmatchedDoesNotParse(s: string)
    requires Trimmed(s) && MatchRelease(StripV(s)).None?
    ensures Parse(TrimSpace(s)) == None
  {
    TrimmedIsFixed(s);
  }

  ghost predicate Agree(current: string, target: string) {
    Newer(current, target) <==> Compare(current, target).Some? && Compare(current, target).value < 0
  }

  /**
   * For all versions without surrounding blanks or empty identifiers and with numbers below 2^63: shell and Go
   * agree unless the prereleases decide and first differ in two spellings of one number, and then exactly when
   * `SameVerdict`.
   */
  lemma VersionsAgreeIff(current: string, target: string)
    requires ReadableVersion(current) && ReadableVersion(target)
    ensures var c, t := MatchRelease(StripV(current)), MatchRelease(StripV(target));
      && (c.Some? ==> MatchesNumbers(c.value)) && (t.Some? ==> MatchesNumbers(t.value))
      && (Agree(current, target)
          <==> (c.Some? && t.Some? && DecidedByPrerelease(c.value, t.value) ==> SameVerdict(Split(c.value.prerelease), Split(t.value.prerelease))))
  {
    hide Split, Pieces, CompareLists, NewerPieces, MatchRelease, Value, TrimSpace, Parse, StripV, AllReadable, SameVerdict, ReadableVersion;
    var c, t := MatchRelease(StripV(current)), MatchRelease(StripV(target));
    MatchedNumbers(StripV(current));
    MatchedNumbers(StripV(target));
    if c.None? {
      ReadableIsTrimmed(current);
      UnmatchedDoesNotParse(current);
    } else if t.None? {
      ReadableIsTrimmed(target);
      UnmatchedDoesNotParse(target);
    } else {
      ReadableParses(current, c.value);
      ReadableParses(target, t.value);
      if c.value.prerelease != "" && t.value.prerelease != "" {
        IdentifiersAgreeIff(Split(c.value.prerelease), Split(t.value.prerelease));
      }
    }
  }

  lemma ReadableIsTrimmed(s: string)
    requires ReadableVersion(s)
    ensures Trimmed(s)
  {
    hide MatchRelease, Split, Value, StripV;
  }

  // ---- an input where they differ ----

  lemma WitnessGroups(s: string, prerelease: string)
    requires prerelease != "" && AllDigits(prerelease) && s == "1.0.0-" + prerelease
    ensures MatchRelease(s) == Some(Groups("1", "0", "0", prerelease)) && MatchRelease(StripV(s)) == MatchRelease(s) && Trimmed(s)
  {
    hide MatchRelease;
    var one, zero := "1", "0";
    assert one + "." + zero + "." + zero == "1.0.0";
    assert s == one + "." + zero + "." + zero + "-" + prerelease;
    MatchReleaseIff(s, Groups(one, zero, zero, prerelease));
    assert s[|s| - 1] == prerelease[|prerelease| - 1];
  }

  lemma DigitsAreOnePart(digits: string)
    requires AllDigits(digits)
    ensures Split(digits) == [digits]
  {
    if digits != "" {
      DigitsAreOnePart(digits[..|digits| - 1]);
      assert digits == digits[..|digits| - 1] + [digits[|digits| - 1]];
    }
  }

  lemma WitnessParses(s: string, prerelease: string, value: nat)
    requires prerelease != "" && AllDigits(prerelease) && Value(prerelease) == value < TWO_63 && s == "1.0.0-" + prerelease
    ensures Parse(TrimSpace(s)) == Some(Parsed(1, 0, 0, [prerelease])) && ReadableVersion(s)
  {
    hide MatchRelease, Split, TrimSpace, StripV, Value;
    WitnessGroups(s, prerelease);
    DigitsAreOnePart(prerelease);
    TrimmedIsFixed(s);
    SmallValues();
  }

  lemma SmallValues()
    ensures Value("0") == 0 && Value("1") == 1
  {
    assert "0"[..0] == "" && "1"[..0] == "";
  }

  lemma RespelledPair(a: string, b: string)
    requires Respelled(a, b) && Less(a, b) && Value(a) < TWO_63
    ensures CompareLists([a], [b]) == -1 && !NewerPieces([a], [b])
  {
    hide Value, Less;
  }

  /** Go calls 1.0.0-1 newer than 1.0.0-01, the shell does not. */
  lemma LeadingZeroDisagrees(padded: string, plain: string)
    requires padded == "1.0.0-01" && plain == "1.0.0-1"
    ensures Compare(padded, plain) == Some(-1) && !Newer(padded, plain)
  {
    var a, b := "01", "1";
    SmallValues();
    LeadingZeroIsNothing(a);
    assert a[1..] == b && Less(a, b);
    RespelledPair(a, b);
    assert padded == "1.0.0-" + a && plain == "1.0.0-" + b;
    WitnessParses(padded, a, 1);
    WitnessParses(plain, b, 1);
    WitnessVerdict(padded, plain, a, b);
  }

  lemma WitnessVerdict(padded: string, plain: string, a: string, b: string)
    requires AllDigits(a) && AllDigits(b) && a != "" && b != "" && padded == "1.0.0-" + a && plain == "1.0.0-" + b
    requires Parse(TrimSpace(padded)) == Some(Parsed(1, 0, 0, [a])) && Parse(TrimSpace(plain)) == Some(Parsed(1, 0, 0, [b]))
    requires CompareLists([a], [b]) == -1 && !NewerPieces([a], [b])
    ensures Compare(padded, plain) == Some(-1) && !Newer(padded, plain)
  {
    hide MatchRelease, Split, TrimSpace, StripV, Value, NonEmpty, Parse, NewerPieces, CompareLists;
    WitnessGroups(padded, a);
    WitnessGroups(plain, b);
    DigitsAreOnePart(a);
    DigitsAreOnePart(b);
    NothingDropped([a]);
    NothingDropped([b]);
  }
}
