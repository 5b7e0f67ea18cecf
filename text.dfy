/**
 * Text facts the buffer and the generator both rely on: the prefix and
 * suffix tests of java.lang.String, its natural (compareTo) ordering, and
 * the sort that the generator's streams apply with that ordering.
 */
module Text {

  datatype Option<T> = None | Some(value: T)

  /** String.startsWith. */
  predicate StartsWith(s: string, prefix: string) {
    |prefix| <= |s| && s[..|prefix|] == prefix
  }

  /** String.endsWith. */
  predicate EndsWith(s: string, suffix: string) {
    |suffix| <= |s| && s[|s| - |suffix|..] == suffix
  }

  lemma StartsWithConcat(prefix: string, rest: string)
    ensures StartsWith(prefix + rest, prefix)
  {
    assert (prefix + rest)[..|prefix|] == prefix;
  }

  /** True when some word's first character differs from the character at the same place of `s`. */
  lemma NotStartsWith(s: string, word: string, i: nat)
    requires i < |word| && i < |s| && s[i] != word[i]
    ensures !StartsWith(s, word)
  {
    if |word| <= |s| {
      assert s[..|word|][i] == s[i];
    }
  }

  /** The last character decides every one-character suffix test. */
  lemma EndsWithOne(s: string, c: char)
    ensures EndsWith(s, [c]) <==> (|s| > 0 && s[|s| - 1] == c)
  {
    if |s| > 0 {
      assert s[|s| - 1..] == [s[|s| - 1]];
    }
  }

  /**
   * String.compareTo(a, b) < 0: the first differing character decides, and a
   * proper prefix comes before the longer string.
   */
  predicate Less(a: string, b: string)
    decreases |a|
  {
    if |a| == 0 then |b| > 0
    else if |b| == 0 then false
    else if a[0] != b[0] then a[0] < b[0]
    else Less(a[1..], b[1..])
  }

  lemma {:induction false} LessIrreflexive(a: string)
    ensures !Less(a, a)
  {
    if |a| > 0 {
      LessIrreflexive(a[1..]);
    }
  }

  lemma {:induction false} LessTransitive(a: string, b: string, c: string)
    requires Less(a, b) && Less(b, c)
    ensures Less(a, c)
    decreases |a|
  {
    if |a| > 0 && a[0] == b[0] && b[0] == c[0] {
      LessTransitive(a[1..], b[1..], c[1..]);
    }
  }

  lemma {:induction false} LessTotal(a: string, b: string)
    ensures a == b || Less(a, b) || Less(b, a)
    decreases |a|
  {
    if |a| > 0 && |b| > 0 && a[0] == b[0] {
      LessTotal(a[1..], b[1..]);
      if a[1..] == b[1..] {
        assert a == [a[0]] + a[1..] && b == [b[0]] + b[1..];
      }
    }
  }

  lemma {:induction false} LessAsymmetric(a: string, b: string)
    ensures !(Less(a, b) && Less(b, a))
  {
    if Less(a, b) && Less(b, a) {
      LessTransitive(a, b, a);
      LessIrreflexive(a);
    }
  }

  /** `s` is in ascending order of `key` (ties allowed). */
  ghost predicate SortedBy<T>(s: seq<T>, key: T -> string) {
    forall i, j :: 0 <= i < j < |s| ==> !Less(key(s[j]), key(s[i]))
  }

  /** `s` is in strictly ascending order, hence free of duplicates. */
  ghost predicate StrictlySorted(s: seq<string>) {
    forall i, j :: 0 <= i < j < |s| ==> Less(s[i], s[j])
  }

  /**
   * Inserts `x` after every element whose key is not greater than its own,
   * which keeps equal keys in arrival order.
   */
  function InsertBy<T>(x: T, s: seq<T>, key: T -> string): (r: seq<T>)
    requires SortedBy(s, key)
    ensures SortedBy(r, key)
    ensures multiset(r) == multiset(s) + multiset{x}
  {
    if s == [] then [x]
    else if Less(key(x), key(s[0])) then
      forall j | 0 <= j < |s| ensures !Less(key(s[j]), key(x)) {
        LessAsymmetric(key(x), key(s[0]));
        if j > 0 && Less(key(s[j]), key(x)) {
          LessTransitive(key(s[j]), key(x), key(s[0]));
        }
      }
      [x] + s
    else
      var tail := InsertBy(x, s[1..], key);
      assert s == [s[0]] + s[1..];
      forall y | y in tail ensures !Less(key(y), key(s[0])) {
        assert y in multiset(tail);
        if y != x {
          assert y in s[1..];
        }
      }
      [s[0]] + tail
  }

  /** The insertion sort modelling Stream.sorted / Collections.sort, by the given key. */
  function SortBy<T>(s: seq<T>, key: T -> string): (r: seq<T>)
    ensures SortedBy(r, key)
    ensures multiset(r) == multiset(s)
  {
    if s == [] then []
    else
      assert s == s[..|s| - 1] + [s[|s| - 1]];
      InsertBy(s[|s| - 1], SortBy(s[..|s| - 1], key), key)
  }

  lemma SortByLength<T>(s: seq<T>, key: T -> string)
    ensures |SortBy(s, key)| == |s|
  {
    assert |multiset(SortBy(s, key))| == |multiset(s)|;
  }

  /** The identity key: strings sorted by their own natural order. */
  function Self(s: string): string { s }

  /** A sorted sequence without duplicates is strictly sorted. */
  lemma DistinctSortedIsStrict(s: seq<string>)
    requires SortedBy(s, Self)
    requires forall i, j :: 0 <= i < j < |s| ==> s[i] != s[j]
    ensures StrictlySorted(s)
  {
    forall i, j | 0 <= i < j < |s| ensures Less(s[i], s[j]) {
      LessTotal(s[i], s[j]);
    }
  }

  /** Two sequences with the same elements are empty together. */
  lemma SameElementsEmpty<T>(a: seq<T>, b: seq<T>)
    requires forall x :: x in a <==> x in b
    ensures a == [] <==> b == []
  {
    if a != [] {
      assert a[0] in b;
    }
    if b != [] {
      assert b[0] in a;
    }
  }

  /**
   * Two strictly sorted sequences holding the same strings are equal: the
   * order of a sorted, duplicate-free rendering is fixed by its set alone.
   */
  lemma {:induction false} StrictlySortedUnique(a: seq<string>, b: seq<string>)
    requires StrictlySorted(a) && StrictlySorted(b)
    requires forall x :: x in a <==> x in b
    ensures a == b
    decreases |a|
  {
    if a == [] || b == [] {
      SameElementsEmpty(a, b);
    } else {
      assert a[0] in b && b[0] in a;
      if a[0] != b[0] {
        var i :| 0 <= i < |b| && b[i] == a[0];
        var j :| 0 <= j < |a| && a[j] == b[0];
        assert Less(b[0], a[0]) by { assert i > 0; }
        assert Less(a[0], b[0]) by { assert j > 0; }
        LessAsymmetric(a[0], b[0]);
      }
      forall x ensures x in a[1..] <==> x in b[1..] {
        if x in a[1..] {
          var k :| 1 <= k < |a| && a[k] == x;
          assert Less(a[0], x);
          LessIrreflexive(x);
          assert x in b;
        }
        if x in b[1..] {
          var k :| 1 <= k < |b| && b[k] == x;
          assert Less(b[0], x);
          LessIrreflexive(x);
          assert x in a;
        }
      }
      StrictlySortedUnique(a[1..], b[1..]);
      assert a == [a[0]] + a[1..] && b == [b[0]] + b[1..];
    }
  }

  lemma StrictIsSorted(s: seq<string>)
    requires StrictlySorted(s)
    ensures SortedBy(s, Self)
  {
    forall i, j | 0 <= i < j < |s| ensures !Less(s[j], s[i]) {
      LessAsymmetric(s[i], s[j]);
    }
  }

  /** Inserting a new string into a strictly sorted sequence keeps it strictly sorted. */
  lemma {:induction false} InsertStrict(x: string, s: seq<string>)
    requires SortedBy(s, Self) && StrictlySorted(s) && x !in s
    ensures StrictlySorted(InsertBy(x, s, Self))
    ensures forall y :: y in InsertBy(x, s, Self) <==> y in s || y == x
    decreases |s|
  {
    if s == [] {
    } else if Less(x, s[0]) {
      assert InsertBy(x, s, Self) == [x] + s;
      InsertFrontStrict(x, s);
    } else {
      StrictTail(s);
      assert x !in s[1..];
      InsertStrict(x, s[1..]);
      assert InsertBy(x, s, Self) == [s[0]] + InsertBy(x, s[1..], Self);
      InsertBehindStrict(x, s, InsertBy(x, s[1..], Self));
    }
  }

  lemma StrictTail(s: seq<string>)
    requires StrictlySorted(s) && s != []
    ensures StrictlySorted(s[1..]) && SortedBy(s[1..], Self)
  {
    StrictIsSorted(s);
  }

  lemma InsertFrontStrict(x: string, s: seq<string>)
    requires StrictlySorted(s) && s != [] && Less(x, s[0])
    ensures StrictlySorted([x] + s)
    ensures forall y :: y in [x] + s <==> y in s || y == x
  {
    forall y | y in s ensures Less(x, y) {
      var j :| 0 <= j < |s| && s[j] == y;
      if j > 0 { LessTransitive(x, s[0], s[j]); }
    }
    StrictCons(x, s);
  }

  lemma InsertBehindStrict(x: string, s: seq<string>, tail: seq<string>)
    requires StrictlySorted(s) && s != [] && !Less(x, s[0]) && x != s[0]
    requires StrictlySorted(tail) && forall y :: y in tail <==> y in s[1..] || y == x
    ensures StrictlySorted([s[0]] + tail)
    ensures forall y :: y in [s[0]] + tail <==> y in s || y == x
  {
    assert s == [s[0]] + s[1..];
    LessTotal(x, s[0]);
    forall y | y in tail ensures Less(s[0], y) {
      if y != x {
        var k :| 0 <= k < |s[1..]| && s[1..][k] == y;
        assert s[k + 1] == y;
      }
    }
    StrictCons(s[0], tail);
  }

  /** A string below every element of a strictly sorted sequence can go in front of it. */
  lemma StrictCons(h: string, s: seq<string>)
    requires StrictlySorted(s) && forall y :: y in s ==> Less(h, y)
    ensures StrictlySorted([h] + s)
  {
    var r := [h] + s;
    forall i, j | 0 <= i < j < |r| ensures Less(r[i], r[j]) {
      assert r[j] == s[j - 1];
      if i > 0 {
        assert r[i] == s[i - 1];
      }
    }
  }

  /** The ascending, duplicate-free listing of a set of strings. */
  ghost function SortedOf(s: set<string>): (r: seq<string>)
    ensures StrictlySorted(r)
    ensures forall x :: x in r <==> x in s
    decreases s
  {
    if s == {} then []
    else
      var x :| x in s;
      var rest := SortedOf(s - {x});
      StrictIsSorted(rest);
      InsertStrict(x, rest);
      InsertBy(x, rest, Self)
  }
}
