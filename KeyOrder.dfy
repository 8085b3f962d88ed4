/// The order `sorted()` puts dictionary keys in: Python compares strings
/// code point by code point, and a proper prefix comes first. `SortKeys` is the
/// sort, proved to return an ascending permutation of its input; since such a
/// permutation is unique, the result does not depend on the input order.
module KeyOrder {

  /** `a < b` on Python strings. */
  predicate Below(a: string, b: string)
    decreases |a|
  {
    if a == [] then b != []
    else if b == [] then false
    else if a[0] != b[0] then a[0] < b[0]
    else Below(a[1..], b[1..])
  }

  /** A proper prefix sorts first: `"ab" < "abc"`. */
  lemma {:induction false} ProperPrefixBelow(a: string, b: string)
    requires |a| < |b| && b[..|a|] == a
    ensures Below(a, b)
  {
    if a != [] {
      assert a[0] == b[0];
      assert b[1..][..|a| - 1] == a[1..];
      ProperPrefixBelow(a[1..], b[1..]);
    }
  }

  /** After a common prefix, the first differing code points decide: `"abd" < "acb"`. */
  lemma {:induction false} BelowAtFirstDifference(a: string, b: string, i: nat)
    requires i < |a| && i < |b| && a[..i] == b[..i] && a[i] != b[i]
    ensures Below(a, b) <==> a[i] < b[i]
  {
    if i > 0 {
      assert a[0] == a[..i][0] == b[..i][0] == b[0];
      assert a[1..][..i - 1] == a[..i][1..] == b[..i][1..] == b[1..][..i - 1];
      BelowAtFirstDifference(a[1..], b[1..], i - 1);
    }
  }

  predicate AtMost(a: string, b: string) {
    a == b || Below(a, b)
  }

  lemma {:induction false} BelowIrreflexive(a: string)
    ensures !Below(a, a)
  {
    if a != [] {
      BelowIrreflexive(a[1..]);
    }
  }

  lemma {:induction false} BelowAsymmetric(a: string, b: string)
    ensures !(Below(a, b) && Below(b, a))
  {
    if a != [] && b != [] && a[0] == b[0] {
      BelowAsymmetric(a[1..], b[1..]);
    }
  }

  lemma {:induction false} BelowTransitive(a: string, b: string, c: string)
    requires Below(a, b) && Below(b, c)
    ensures Below(a, c)
  {
    if a != [] && a[0] == b[0] && b[0] == c[0] {
      BelowTransitive(a[1..], b[1..], c[1..]);
    }
  }

  /** Any two different strings are ordered one way or the other. */
  lemma {:induction false} BelowTotal(a: string, b: string)
    requires a != b
    ensures Below(a, b) || Below(b, a)
  {
    if a != [] && b != [] && a[0] == b[0] {
      assert a == [a[0]] + a[1..] && b == [b[0]] + b[1..];
      BelowTotal(a[1..], b[1..]);
    }
  }

  lemma AtMostTransitive(a: string, b: string, c: string)
    requires AtMost(a, b) && AtMost(b, c)
    ensures AtMost(a, c)
  {
    if a != b && b != c {
      BelowTransitive(a, b, c);
    }
  }

  predicate Ascending(s: seq<string>) {
    forall i, j :: 0 <= i < j < |s| ==> AtMost(s[i], s[j])
  }

  lemma PrependAscending(x: string, t: seq<string>)
    requires Ascending(t)
    requires forall y :: y in multiset(t) ==> AtMost(x, y)
    ensures Ascending([x] + t)
  {
    forall i, j | 0 <= i < j < |[x] + t| ensures AtMost(([x] + t)[i], ([x] + t)[j]) {
      if i == 0 {
        assert t[j - 1] in multiset(t);
      }
    }
  }

  /** The head of an ascending sequence bounds whatever `k` is inserted behind it. */
  lemma HeadBoundsInsertion(s: seq<string>, k: string, rest: seq<string>)
    requires Ascending(s) && s != [] && Below(s[0], k)
    requires multiset(rest) == multiset(s[1..]) + multiset{k}
    ensures forall y :: y in multiset(rest) ==> AtMost(s[0], y)
  {
    assert s == [s[0]] + s[1..];
    forall y | y in multiset(rest) ensures AtMost(s[0], y) {
      if y != k {
        assert y in multiset(s[1..]);
        AscendingHeadLeast(s, y);
      }
    }
  }

  /** A key not above the head of an ascending sequence is at most every element of it. */
  lemma KeyBoundsSequence(s: seq<string>, k: string)
    requires Ascending(s) && s != [] && !Below(s[0], k)
    ensures forall y :: y in multiset(s) ==> AtMost(k, y)
  {
    assert AtMost(k, s[0]) by { if k != s[0] { BelowTotal(k, s[0]); } }
    forall y | y in multiset(s) ensures AtMost(k, y) {
      AscendingHeadLeast(s, y);
      AtMostTransitive(k, s[0], y);
    }
  }

  /** Inserts `k` before the first element that is not below it. */
  function Insert(k: string, s: seq<string>): (r: seq<string>)
    requires Ascending(s)
    ensures Ascending(r)
    ensures multiset(r) == multiset(s) + multiset{k}
  {
    if s == [] then [k]
    else if Below(s[0], k) then
      var rest := Insert(k, s[1..]);
      HeadBoundsInsertion(s, k, rest);
      PrependAscending(s[0], rest);
      assert s == [s[0]] + s[1..];
      [s[0]] + rest
    else
      KeyBoundsSequence(s, k);
      PrependAscending(k, s);
      [k] + s
  }

  /** `sorted(keys)`: an ascending permutation of `keys`. */
  function SortKeys(keys: seq<string>): (r: seq<string>)
    ensures Ascending(r)
    ensures multiset(r) == multiset(keys)
  {
    if keys == [] then []
    else
      assert keys == [keys[0]] + keys[1..];
      Insert(keys[0], SortKeys(keys[1..]))
  }

  /** Sorting neither adds nor drops a key. */
  lemma SortKeysMembers(keys: seq<string>)
    ensures forall k :: k in SortKeys(keys) <==> k in keys
  {
    var r := SortKeys(keys);
    forall k ensures k in r <==> k in keys {
      assert k in r <==> k in multiset(r);
      assert k in keys <==> k in multiset(keys);
    }
  }

  lemma AscendingHeadLeast(s: seq<string>, x: string)
    requires Ascending(s) && x in multiset(s)
    ensures AtMost(s[0], x)
  {
    var j :| 0 <= j < |s| && s[j] == x;
    if j > 0 {
      assert AtMost(s[0], s[j]);
    }
  }

  lemma MultisetOfTail(s: seq<string>)
    requires s != []
    ensures multiset(s[1..]) == multiset(s) - multiset{s[0]}
  {
    assert s == [s[0]] + s[1..];
  }

  /** Ascending sequences with the same elements start with the same element. */
  lemma AscendingSameHead(s: seq<string>, t: seq<string>)
    requires Ascending(s) && Ascending(t) && s != [] && t != []
    requires multiset(s) == multiset(t)
    ensures s[0] == t[0]
  {
    assert s[0] in multiset(s);
    assert t[0] in multiset(t);
    AscendingHeadLeast(s, t[0]);
    AscendingHeadLeast(t, s[0]);
    BelowAsymmetric(s[0], t[0]);
  }

  /** Two ascending sequences with the same elements are the same sequence. */
  lemma {:induction false} AscendingUnique(s: seq<string>, t: seq<string>)
    requires Ascending(s) && Ascending(t)
    requires multiset(s) == multiset(t)
    ensures s == t
  {
    if s == [] {
      assert |t| == |multiset(t)| == 0;
    } else {
      assert |t| == |multiset(t)| == |s|;
      AscendingSameHead(s, t);
      MultisetOfTail(s);
      MultisetOfTail(t);
      AscendingUnique(s[1..], t[1..]);
      assert s == [s[0]] + s[1..] && t == [t[0]] + t[1..];
    }
  }

  /** `sorted` ignores the order it is given its keys in. */
  lemma SortKeysOrderIndependent(a: seq<string>, b: seq<string>)
    requires multiset(a) == multiset(b)
    ensures SortKeys(a) == SortKeys(b)
  {
    AscendingUnique(SortKeys(a), SortKeys(b));
  }

  /** Keys that are already ascending come back unchanged. */
  lemma SortKeysOfAscending(keys: seq<string>)
    requires Ascending(keys)
    ensures SortKeys(keys) == keys
  {
    AscendingUnique(SortKeys(keys), keys);
  }

  predicate Distinct(s: seq<string>) {
    forall i, j :: 0 <= i < j < |s| ==> s[i] != s[j]
  }

  lemma {:induction false} DistinctCount(s: seq<string>, x: string)
    requires Distinct(s)
    ensures multiset(s)[x] == if x in s then 1 else 0
  {
    if s != [] {
      assert s == [s[0]] + s[1..];
      DistinctCount(s[1..], x);
    }
  }

  /** Two duplicate-free key lists with the same members are permutations of each other. */
  lemma DistinctSameMembers(a: seq<string>, b: seq<string>)
    requires Distinct(a) && Distinct(b)
    requires forall x :: x in a <==> x in b
    ensures multiset(a) == multiset(b)
  {
    forall x ensures multiset(a)[x] == multiset(b)[x] {
      DistinctCount(a, x);
      DistinctCount(b, x);
    }
  }
}
