/** The `checksums.txt` format, as the release cache and the self-updating agent read it. */
module Checksums {
  import opened Text
  import opened Numbers

  predicate IsHex(c: char) {
    IsDigit(c) || 'a' <= c <= 'f' || 'A' <= c <= 'F'
  }

  /** 64 hexadecimal digits: the text of a SHA-256 digest. */
  predicate IsDigest(s: string) {
    |s| == 64 && forall i :: 0 <= i < |s| ==> IsHex(s[i])
  }

  function LowerChar(c: char): char {
    if 'A' <= c <= 'Z' then (c as int + 32) as char else c
  }

  function ToLower(s: string): (r: string)
    ensures |r| == |s|
  {
    seq(|s|, i requires 0 <= i < |s| => LowerChar(s[i]))
  }

  /** A line as `strings.Fields` splits it. */
  type Line = seq<string>

  function Fields(s: string): Line {
    if s == "" then []
    else
      var n := |s| - 1;
      var earlier := Fields(s[..n]);
      if IsSpace(s[n]) then earlier
      else if n > 0 && !IsSpace(s[n - 1]) && earlier != [] then earlier[..|earlier| - 1] + [earlier[|earlier| - 1] + [s[n]]]
      else earlier + [[s[n]]]
  }

  /** The lines a scanner reads; the fields of a line do not depend on its carriage return. */
  function LinesOf(content: string): (lines: seq<Line>)
    ensures lines != []
  {
    var cut := LastBreak(content, |content|);
    if cut < 0 then [Fields(content)] else LinesOf(content[..cut]) + [Fields(content[cut + 1..])]
  }

  /** The position of the last line feed before `n`, or -1. */
  function LastBreak(s: string, n: nat): (i: int)
    requires n <= |s|
    ensures -1 <= i < n || i == -1
  {
    if n == 0 then -1 else if s[n - 1] == '\n' then n - 1 else LastBreak(s, n - 1)
  }

  predicate Lists(line: Line, asset: string) {
    |line| == 2 && line[1] == asset && IsDigest(line[0])
  }

  /** The agent takes the first line that lists the asset. */
  function FirstDigest(lines: seq<Line>, asset: string): Option<string> {
    if lines == [] then None
    else if Lists(lines[0], asset) then Some(ToLower(lines[0][0]))
    else FirstDigest(lines[1..], asset)
  }

  /** The server keeps the last line of each asset it knows. */
  function LastDigest(lines: seq<Line>, asset: string): Option<string> {
    if lines == [] then None
    else if Lists(lines[|lines| - 1], asset) then Some(ToLower(lines[|lines| - 1][0]))
    else LastDigest(lines[..|lines| - 1], asset)
  }

  method UpdateChecksumForAsset(lines: seq<Line>, asset: string) returns (digest: Option<string>)
    ensures digest == FirstDigest(lines, asset)
  {
    for i := 0 to |lines|
      invariant FirstDigest(lines, asset) == FirstDigest(lines[i..], asset)
    {
      var fields := lines[i];
      assert lines[i..][1..] == lines[i + 1..];
      if |fields| != 2 || fields[1] != asset || |fields[0]| != 64 {
        continue;
      }
      if IsDigest(fields[0]) {
        return Some(ToLower(fields[0]));
      }
    }
    return None;
  }

  lemma {:induction false} FirstAt(lines: seq<Line>, asset: string, i: nat)
    requires i < |lines| && Lists(lines[i], asset) && forall j :: 0 <= j < i ==> !Lists(lines[j], asset)
    ensures FirstDigest(lines, asset) == Some(ToLower(lines[i][0]))
    decreases |lines|
  {
    if i > 0 {
      FirstAt(lines[1..], asset, i - 1);
    }
  }

  lemma {:induction false} LastAt(lines: seq<Line>, asset: string, i: nat)
    requires i < |lines| && Lists(lines[i], asset) && forall j :: i < j < |lines| ==> !Lists(lines[j], asset)
    ensures LastDigest(lines, asset) == Some(ToLower(lines[i][0]))
    decreases |lines|
  {
    if i < |lines| - 1 {
      LastAt(lines[..|lines| - 1], asset, i);
    }
  }

  lemma {:induction false} NoneListed(lines: seq<Line>, asset: string)
    requires forall i :: 0 <= i < |lines| ==> !Lists(lines[i], asset)
    ensures FirstDigest(lines, asset) == None && LastDigest(lines, asset) == None
  {
    if lines != [] {
      NoneListed(lines[1..], asset);
      NoneListed(lines[..|lines| - 1], asset);
    }
  }

  // ---- what a checksums file says ----

  /** A file name or a digest: not empty, no white space. */
  predicate Word(s: string) {
    s != "" && forall i :: 0 <= i < |s| ==> !IsSpace(s[i])
  }

  datatype Entry = Entry(digest: string, name: string)

  /** The file as `sha256sum` writes it. */
  function Written(entries: seq<Entry>): string {
    if entries == [] then ""
    else
      var e := entries[|entries| - 1];
      Written(entries[..|entries| - 1]) + (e.digest + "  " + e.name) + "\n"
  }

  /** What one more character that is no space does to the fields. */
  lemma FieldsOfChar(s: string, c: char)
    requires !IsSpace(c)
    ensures var earlier := Fields(s);
      Fields(s + [c]) == if s != "" && !IsSpace(s[|s| - 1]) && earlier != []
                         then earlier[..|earlier| - 1] + [earlier[|earlier| - 1] + [c]] else earlier + [[c]]
  {
    assert (s + [c])[..|s|] == s;
  }

  lemma {:induction false} FieldsOfWord(s: string, w: string)
    requires Word(w) && (s != "" ==> IsSpace(s[|s| - 1]))
    ensures Fields(s + w) == Fields(s) + [w]
  {
    hide Fields, IsSpace;
    var n := |w| - 1;
    var before := s + w[..n];
    assert w == w[..n] + [w[n]] && s + w == before + [w[n]];
    FieldsOfChar(before, w[n]);
    if n > 0 {
      FieldsOfWord(s, w[..n]);
      assert before[|before| - 1] == w[n - 1];
    } else {
      assert before == s && w == [w[0]];
    }
  }

  lemma FieldsOfSpace(s: string, c: char)
    requires IsSpace(c)
    ensures Fields(s + [c]) == Fields(s)
  {
    assert (s + [c])[..|s|] == s;
  }

  lemma FieldsOfEntry(e: Entry)
    requires Word(e.digest) && Word(e.name)
    ensures Fields(e.digest + "  " + e.name) == [e.digest, e.name]
  {
    FieldsOfWord("", e.digest);
    assert "" + e.digest == e.digest && Fields("") == [];
    FieldsOfSpace(e.digest, ' ');
    FieldsOfSpace(e.digest + " ", ' ');
    assert e.digest + "  " == e.digest + " " + " ";
    hide Fields;
    FieldsOfWord(e.digest + "  ", e.name);
  }

  lemma {:induction false} NoBreakIn(s: string, n: nat)
    requires n <= |s| && forall i :: 0 <= i < n ==> s[i] != '\n'
    ensures LastBreak(s, n) == -1
  {
    if n > 0 {
      NoBreakIn(s, n - 1);
    }
  }

  lemma {:induction false} BreakAt(s: string, b: nat, n: nat)
    requires b < n <= |s| && s[b] == '\n' && forall i :: b < i < n ==> s[i] != '\n'
    ensures LastBreak(s, n) == b
  {
    if b < n - 1 {
      BreakAt(s, b, n - 1);
    }
  }

  lemma {:induction false} LinesThenTail(entries: seq<Entry>, tail: string)
    requires forall e :: e in entries ==> Word(e.digest) && Word(e.name)
    requires forall i :: 0 <= i < |tail| ==> tail[i] != '\n'
    ensures LinesOf(Written(entries) + tail) == seq(|entries|, i requires 0 <= i < |entries| => [entries[i].digest, entries[i].name]) + [Fields(tail)]
    decreases |entries|
  {
    hide Fields, LastBreak;
    var content := Written(entries) + tail;
    if entries == [] {
      NoBreakIn(content, |content|);
      assert content == tail;
    } else {
      var n := |entries| - 1;
      var e := entries[n];
      var line := e.digest + "  " + e.name;
      var before := Written(entries[..n]) + line;
      var cut := |before|;
      assert content == before + "\n" + tail;
      BreakAt(content, cut, |content|);
      assert content[..cut] == before && content[cut + 1..] == tail;
      LinesThenTail(entries[..n], line);
      FieldsOfEntry(e);
    }
  }

  /** A written checksums file reads back as its entries, and an empty last line. */
  lemma WrittenReadsBack(entries: seq<Entry>)
    requires forall e :: e in entries ==> Word(e.digest) && Word(e.name)
    ensures LinesOf(Written(entries)) == seq(|entries|, i requires 0 <= i < |entries| => [entries[i].digest, entries[i].name]) + [[]]
  {
    LinesThenTail(entries, "");
    assert Written(entries) + "" == Written(entries);
  }

  function HexValue(c: char): nat
    requires IsHex(c)
  {
    if IsDigit(c) then c as int - '0' as int else if 'a' <= c <= 'f' then c as int - 'a' as int + 10 else c as int - 'A' as int + 10
  }

  /** The lower-case text of a digest is the same digest. */
  lemma LowerIsSameDigest(s: string)
    requires IsDigest(s)
    ensures var r := ToLower(s);
      IsDigest(r) && forall i :: 0 <= i < 64 ==> HexValue(r[i]) == HexValue(s[i]) && (IsDigit(r[i]) || 'a' <= r[i] <= 'f')
  {}
}
