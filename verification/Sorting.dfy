/** Sorting by a string key, as `sort.Slice` does, and why the result is canonical. */
module Sorting {
  import opened Text

  ghost predicate SortedBy<T>(key: T -> string, s: seq<T>) {
    forall i, j :: 0 <= i < j < |s| ==> !Less(key(s[j]), key(s[i]))
  }

  /** Elements with equal keys are equal: the key identifies the element. */
  ghost predicate Identifies<T>(key: T -> string, s: seq<T>) {
    forall x, y :: x in s && y in s && key(x) == key(y) ==> x == y
  }

  function Insert<T>(key: T -> string, x: T, s: seq<T>): (r: seq<T>)
    ensures multiset(r) == multiset(s) + multiset{x}
  {
    if s == [] || Less(key(x), key(s[0])) then [x] + s
    else
      assert s == [s[0]] + s[1..];
      [s[0]] + Insert(key, x, s[1..])
  }

  function SortBy<T>(key: T -> string, s: seq<T>): (r: seq<T>)
    ensures multiset(r) == multiset(s)
  {
    if s == [] then []
    else
      assert s == [s[0]] + s[1..];
      Insert(key, s[0], SortBy(key, s[1..]))
  }

  lemma MemberOfMultiset<T>(s: seq<T>, r: seq<T>)
    requires multiset(s) == multiset(r)
    ensures |s| == |r|
    ensures forall x :: x in s <==> x in r
  {
    assert |multiset(s)| == |s| && |multiset(r)| == |r|;
    forall x ensures x in s <==> x in r {
      assert x in s <==> x in multiset(s);
      assert x in r <==> x in multiset(r);
    }
  }

  lemma {:induction false} InsertSorted<T>(key: T -> string, x: T, s: seq<T>)
    requires SortedBy(key, s)
    ensures SortedBy(key, Insert(key, x, s))
  {
    var r := Insert(key, x, s);
    if s == [] {
    } else if Less(key(x), key(s[0])) {
      forall j | 0 <= j < |s| ensures !Less(key(s[j]), key(x)) {
        if Less(key(s[j]), key(x)) {
          LessTransitive(key(s[j]), key(x), key(s[0]));
          LessIrreflexive(key(s[0]));
        }
      }
    } else {
      InsertSorted(key, x, s[1..]);
      var rest := Insert(key, x, s[1..]);
      forall y | y in rest ensures !Less(key(y), key(s[0])) {
        assert y in multiset(rest);
        assert y == x || y in s[1..];
      }
      assert forall j :: 0 <= j < |rest| ==> rest[j] in rest;
      assert r == [s[0]] + rest;
    }
  }

  lemma {:induction false} SortBySorted<T>(key: T -> string, s: seq<T>)
    ensures SortedBy(key, SortBy(key, s))
  {
    if s != [] {
      SortBySorted(key, s[1..]);
      InsertSorted(key, s[0], SortBy(key, s[1..]));
    }
  }

  lemma HeadsAgree<T>(key: T -> string, a: seq<T>, b: seq<T>)
    requires SortedBy(key, a) && SortedBy(key, b) && a != []
    requires multiset(a) == multiset(b)
    requires Identifies(key, a)
    ensures b != [] && a[0] == b[0] && multiset(a[1..]) == multiset(b[1..])
  {
    MemberOfMultiset(a, b);
    assert a[0] in b && b[0] in a;
    LessTrichotomy(key(a[0]), key(b[0]));
    assert a[0] == b[0] by {
      var i :| 0 <= i < |a| && a[i] == b[0];
      var j :| 0 <= j < |b| && b[j] == a[0];
      hide Less;
      assert i == 0 || !Less(key(a[i]), key(a[0]));
      assert j == 0 || !Less(key(b[j]), key(b[0]));
    }
    hide SortedBy, Identifies, Less;
    assert a == [a[0]] + a[1..] && b == [b[0]] + b[1..];
    assert multiset(a[1..]) == multiset(a) - multiset{a[0]};
    assert multiset(b[1..]) == multiset(b) - multiset{a[0]};
  }

  /** Two sorted arrangements of the same elements are the same list, whatever algorithm made them. */
  lemma {:induction false} SortedIsUnique<T>(key: T -> string, a: seq<T>, b: seq<T>)
    requires SortedBy(key, a) && SortedBy(key, b)
    requires multiset(a) == multiset(b)
    requires Identifies(key, a)
    ensures a == b
    decreases |a|
  {
    MemberOfMultiset(a, b);
    if a != [] {
      HeadsAgree(key, a, b);
      hide Less;
      SortedIsUnique(key, a[1..], b[1..]);
      assert a == [a[0]] + a[1..] && b == [b[0]] + b[1..];
    }
  }

  lemma SortByCanonical<T>(key: T -> string, a: seq<T>, b: seq<T>)
    requires multiset(a) == multiset(b)
    requires Identifies(key, a)
    ensures SortBy(key, a) == SortBy(key, b)
  {
    SortBySorted(key, a);
    SortBySorted(key, b);
    var sorted := SortBy(key, a);
    forall x, y | x in sorted && y in sorted && key(x) == key(y) ensures x == y {
      assert x in multiset(sorted) && y in multiset(sorted);
      assert x in multiset(a) && y in multiset(a);
    }
    SortedIsUnique(key, SortBy(key, a), SortBy(key, b));
  }
}
