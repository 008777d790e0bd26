/** String order and sorting.
    Python compares `str` values code point by code point, a proper prefix first; SQLite's
    default BINARY collation compares the UTF-8 bytes, which is the same order because UTF-8
    preserves code point order. So `"100"` sorts before `"99"`. Both `ORDER BY sku` in the
    scraper and `sorted(...)` in the converters are modelled by `SortBy` on a set of distinct
    strings, ordered by an integer key first and by the string itself second. */
module Ordering {

  /** `a < b` on strings. */
  predicate StrLess(a: string, b: string)
  {
    if a == [] then b != []
    else if b == [] then false
    else a[0] < b[0] || (a[0] == b[0] && StrLess(a[1..], b[1..]))
  }

  lemma {:induction false} StrLessIrreflexive(a: string)
    ensures !StrLess(a, a)
  {
    if a != [] { StrLessIrreflexive(a[1..]); }
  }

  lemma {:induction false} StrLessAsymmetric(a: string, b: string)
    ensures !(StrLess(a, b) && StrLess(b, a))
  {
    if a != [] && b != [] && a[0] == b[0] { StrLessAsymmetric(a[1..], b[1..]); }
  }

  lemma {:induction false} StrLessTransitive(a: string, b: string, c: string)
    requires StrLess(a, b) && StrLess(b, c)
    ensures StrLess(a, c)
  {
    if a != [] && a[0] == b[0] && b[0] == c[0] {
      StrLessTransitive(a[1..], b[1..], c[1..]);
    }
  }

  lemma {:induction false} StrLessTotal(a: string, b: string)
    ensures a == b || StrLess(a, b) || StrLess(b, a)
  {
    if a != [] && b != [] && a[0] == b[0] {
      StrLessTotal(a[1..], b[1..]);
      if a[1..] == b[1..] {
        assert a == [a[0]] + a[1..] && b == [b[0]] + b[1..];
      }
    }
  }

  /** The two-part sort key `(key(x), x)` compared lexicographically. */
  predicate KeyLess(key: string -> int, a: string, b: string)
  {
    key(a) < key(b) || (key(a) == key(b) && StrLess(a, b))
  }

  lemma KeyLessAsymmetric(key: string -> int, a: string, b: string)
    ensures !(KeyLess(key, a, b) && KeyLess(key, b, a))
  {
    StrLessAsymmetric(a, b);
  }

  lemma KeyLessTotal(key: string -> int, a: string, b: string)
    ensures a == b || KeyLess(key, a, b) || KeyLess(key, b, a)
  {
    StrLessTotal(a, b);
  }

  lemma KeyLessTransitive(key: string -> int, a: string, b: string, c: string)
    requires KeyLess(key, a, b) && KeyLess(key, b, c)
    ensures KeyLess(key, a, c)
  {
    if key(a) == key(b) == key(c) { StrLessTransitive(a, b, c); }
  }

  /** Strictly ascending by the two-part key, so also free of duplicates. */
  predicate SortedBy(s: seq<string>, key: string -> int)
  {
    forall i, j :: 0 <= i < j < |s| ==> KeyLess(key, s[i], s[j])
  }

  /** `m` is the least element of `s` under the two-part key. */
  predicate IsLeast(m: string, s: set<string>, key: string -> int)
  {
    m in s && forall y :: y in s && y != m ==> KeyLess(key, m, y)
  }

  lemma {:induction false} LeastExists(s: set<string>, key: string -> int)
    requires s != {}
    ensures exists m :: IsLeast(m, s, key)
    decreases |s|
  {
    var x :| x in s;
    if s - {x} == {} {
      assert s == {x};
      assert IsLeast(x, s, key);
    } else {
      LeastExists(s - {x}, key);
      var m :| IsLeast(m, s - {x}, key);
      KeyLessTotal(key, m, x);
      if KeyLess(key, m, x) {
        assert IsLeast(m, s, key);
      } else {
        forall y | y in s && y != x
          ensures KeyLess(key, x, y)
        {
          if y != m { KeyLessTransitive(key, x, m, y); }
        }
        assert IsLeast(x, s, key);
      }
    }
  }

  /** The least element of a non-empty set. */
  function Least(s: set<string>, key: string -> int): (m: string)
    requires s != {}
    ensures IsLeast(m, s, key)
  {
    LeastExists(s, key);
    assert forall a, b :: IsLeast(a, s, key) && IsLeast(b, s, key) ==> a == b by {
      forall a, b | IsLeast(a, s, key) && IsLeast(b, s, key)
        ensures a == b
      {
        KeyLessAsymmetric(key, a, b);
      }
    }
    var m :| IsLeast(m, s, key);
    m
  }

  /** The elements of `s` in ascending order of `(key(x), x)`: Python's
      `sorted(s, key=lambda x: (key(x), x))` on distinct strings. */
  function SortBy(s: set<string>, key: string -> int): (r: seq<string>)
    ensures |r| == |s|
    ensures forall x :: x in r <==> x in s
    ensures SortedBy(r, key)
    decreases |s|
  {
    if s == {} then []
    else
      var m := Least(s, key);
      var rest := SortBy(s - {m}, key);
      assert forall j :: 0 <= j < |rest| ==> rest[j] in s - {m};
      [m] + rest
  }

  /** Python's `sorted(xs)` on a set of strings: ascending string order. */
  function SortStrings(s: set<string>): (r: seq<string>)
    ensures |r| == |s|
    ensures forall x :: x in r <==> x in s
    ensures forall i, j :: 0 <= i < j < |r| ==> StrLess(r[i], r[j])
  {
    SortBy(s, _ => 0)
  }

  /** Sorting orders by code point, not by number: "100" comes before "99". */
  lemma StringOrderIsNotNumeric()
    ensures StrLess("100", "99") && !StrLess("99", "100")
  {
  }

  /** The head of a non-empty sequence is one of its members. Called where the facts in scope
      already make the sequence empty, so that `s[0]` is not read in a branch they rule out. */
  lemma HeadIsMember<T>(s: seq<T>)
    ensures s == [] || s[0] in s
  {
  }

  /** A set has only one ascending listing: two sorted sequences with the same elements are
      equal. */
  lemma {:induction false} SortedByUnique(a: seq<string>, b: seq<string>, key: string -> int)
    requires SortedBy(a, key) && SortedBy(b, key)
    requires forall x :: x in a <==> x in b
    ensures a == b
    decreases |a|
  {
    if a != [] {
      assert a[0] in b;
      assert b != [] && b[0] in a;
      if a[0] != b[0] {
        var i :| 0 <= i < |b| && b[i] == a[0];
        var j :| 0 <= j < |a| && a[j] == b[0];
        assert KeyLess(key, b[0], a[0]) && KeyLess(key, a[0], b[0]);
        KeyLessAsymmetric(key, a[0], b[0]);
      }
      forall x
        ensures x in a[1..] <==> x in b[1..]
      {
        if x in a[1..] {
          var i :| 1 <= i < |a| && a[i] == x;
          assert KeyLess(key, a[0], x);
          KeyLessAsymmetric(key, x, x);
          assert x in b && x != b[0];
          var j :| 0 <= j < |b| && b[j] == x;
          assert b[1..][j - 1] == x;
        }
        if x in b[1..] {
          var j :| 1 <= j < |b| && b[j] == x;
          assert KeyLess(key, b[0], x);
          KeyLessAsymmetric(key, x, x);
          assert x in a && x != a[0];
          var i :| 0 <= i < |a| && a[i] == x;
          assert a[1..][i - 1] == x;
        }
      }
      SortedByUnique(a[1..], b[1..], key);
      assert a == [a[0]] + a[1..] && b == [b[0]] + b[1..];
    } else {
      HeadIsMember(b);
    }
  }

  /** So `SortBy` is the one ascending listing of its set. */
  lemma SortByIsUnique(s: set<string>, key: string -> int, r: seq<string>)
    requires SortedBy(r, key) && forall x :: x in r <==> x in s
    ensures SortBy(s, key) == r
  {
    SortedByUnique(SortBy(s, key), r, key);
  }
}
