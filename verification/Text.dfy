/** Strings as Go and PostgreSQL compare them, and the trimming that Go's `strings.TrimSpace` does. */
module Text {

  datatype Option<+T> = None | Some(value: T)

  /** Strict lexicographic order on code points: Go's `<` on strings. */
  predicate Less(a: string, b: string) {
    if b == [] then false
    else if a == [] then true
    else if a[0] != b[0] then a[0] < b[0]
    else Less(a[1..], b[1..])
  }

  lemma {:induction false} LessIrreflexive(a: string)
    ensures !Less(a, a)
  {
    if a != [] {
      LessIrreflexive(a[1..]);
    }
  }

  lemma {:induction false} LessTransitive(a: string, b: string, c: string)
    requires Less(a, b) && Less(b, c)
    ensures Less(a, c)
  {
    if a != [] && a[0] == b[0] && b[0] == c[0] {
      LessTransitive(a[1..], b[1..], c[1..]);
    }
  }

  /** Exactly one of the three relations holds between two strings. */
  lemma {:induction false} LessTrichotomy(a: string, b: string)
    ensures Less(a, b) || a == b || Less(b, a)
    ensures !(Less(a, b) && Less(b, a))
    ensures Less(a, b) ==> a != b
  {
    if a != [] && b != [] && a[0] == b[0] {
      LessTrichotomy(a[1..], b[1..]);
      assert a == [a[0]] + a[1..] && b == [b[0]] + b[1..];
    }
  }

  /** One string precedes another exactly when it is a proper prefix of it or smaller where they first differ. */
  lemma {:induction false} LessIff(a: string, b: string)
    ensures Less(a, b) <==> exists i :: 0 <= i <= |a| && i < |b| && a[..i] == b[..i] && (i == |a| || a[i] < b[i])
  {
    forall i | 0 < i <= |a| && i < |b| && a[..i] == b[..i] ensures a[0] == b[0] {
      assert a[..i][0] == a[0] && b[..i][0] == b[0];
    }
    if a != [] && b != [] && a[0] == b[0] {
      LessIff(a[1..], b[1..]);
      if Less(a[1..], b[1..]) {
        var i :| 0 <= i <= |a| - 1 && i < |b| - 1 && a[1..][..i] == b[1..][..i] && (i == |a| - 1 || a[1..][i] < b[1..][i]);
        assert a[..i + 1] == [a[0]] + a[1..][..i] && b[..i + 1] == [b[0]] + b[1..][..i];
        assert i + 1 == |a| || a[i + 1] < b[i + 1];
      }
      if i :| 0 <= i <= |a| && i < |b| && a[..i] == b[..i] && (i == |a| || a[i] < b[i]) {
        assert i > 0;
        assert a[1..][..i - 1] == a[..i][1..] == b[..i][1..] == b[1..][..i - 1];
        assert i - 1 == |a[1..]| || a[1..][i - 1] < b[1..][i - 1];
      }
    } else if Less(a, b) {
      assert a[..0] == b[..0];
    }
  }

  /** Go's `unicode.IsSpace`. */
  predicate IsSpace(c: char) {
    || c == ' ' || '\U{0009}' <= c <= '\U{000D}' || c == '\U{0085}' || c == '\U{00A0}'
    || c == '\U{1680}' || '\U{2000}' <= c <= '\U{200A}' || c == '\U{2028}' || c == '\U{2029}'
    || c == '\U{202F}' || c == '\U{205F}' || c == '\U{3000}'
  }

  function TrimLeft(s: string): (r: string)
    ensures r != [] ==> !IsSpace(r[0])
    ensures |r| <= |s|
  {
    if s != [] && IsSpace(s[0]) then TrimLeft(s[1..]) else s
  }

  function TrimRight(s: string): (r: string)
    ensures r != [] ==> !IsSpace(r[|r| - 1])
    ensures r <= s
  {
    if s != [] && IsSpace(s[|s| - 1]) then TrimRight(s[..|s| - 1]) else s
  }

  function TrimSpace(s: string): (r: string)
    ensures Trimmed(r)
  {
    TrimRight(TrimLeft(s))
  }

  predicate Trimmed(s: string) {
    s != [] ==> !IsSpace(s[0]) && !IsSpace(s[|s| - 1])
  }

  ghost predicate AllSpace(s: string) {
    forall i :: 0 <= i < |s| ==> IsSpace(s[i])
  }

  lemma {:induction false} TrimLeftCuts(s: string) returns (before: string)
    ensures AllSpace(before) && s == before + TrimLeft(s)
  {
    before := "";
    if s != [] && IsSpace(s[0]) {
      var rest := TrimLeftCuts(s[1..]);
      before := [s[0]] + rest;
    }
  }

  lemma {:induction false} TrimRightCuts(s: string) returns (after: string)
    ensures AllSpace(after) && s == TrimRight(s) + after
  {
    after := "";
    if s != [] && IsSpace(s[|s| - 1]) {
      var rest := TrimRightCuts(s[..|s| - 1]);
      after := rest + [s[|s| - 1]];
    }
  }

  /** Trimming cuts white space off both ends and nothing else; the result has none there. */
  lemma TrimSpaceCuts(s: string) returns (before: string, after: string)
    ensures Trimmed(TrimSpace(s)) && AllSpace(before) && AllSpace(after) && s == before + TrimSpace(s) + after
  {
    before := TrimLeftCuts(s);
    after := TrimRightCuts(TrimLeft(s));
  }

  lemma TrimmedIsFixed(s: string)
    requires Trimmed(s)
    ensures TrimSpace(s) == s
  {}

  predicate Blank(s: string) {
    TrimSpace(s) == ""
  }
}
