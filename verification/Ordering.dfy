/** Lexicographic order on sequences of numbers, and stable sorting by such a key. */
module Ordering {

  /** A string as its code points, which is how strings compare. */
  function CodePoints(s: string): seq<int> {
    seq(|s|, i requires 0 <= i < |s| => s[i] as int)
  }

  /** The first sequence comes strictly first. */
  predicate Less(a: seq<int>, b: seq<int>)
    decreases |a|
  {
    b != [] && (a == [] || a[0] < b[0] || (a[0] == b[0] && Less(a[1..], b[1..])))
  }

  /** At the first place where they differ it has the smaller number, or it has ended there. */
  lemma {:induction false} LessAtDifference(a: seq<int>, b: seq<int>, k: nat)
    requires k <= |a| && k <= |b| && a[..k] == b[..k]
    requires k == |a| || k == |b| || a[k] != b[k]
    ensures Less(a, b) <==> k < |b| && (k == |a| || a[k] < b[k])
  {
    if k > 0 {
      assert a[0] == a[..k][0] && b[0] == b[..k][0];
      assert a[1..][..k - 1] == a[..k][1..] && b[1..][..k - 1] == b[..k][1..];
      LessAtDifference(a[1..], b[1..], k - 1);
    }
  }

  lemma {:induction false} LessIrreflexive(a: seq<int>)
    ensures !Less(a, a)
  {
    if a != [] { LessIrreflexive(a[1..]); }
  }

  lemma {:induction false} LessTransitive(a: seq<int>, b: seq<int>, c: seq<int>)
    requires Less(a, b) && Less(b, c)
    ensures Less(a, c)
  {
    if a != [] && a[0] == b[0] == c[0] { LessTransitive(a[1..], b[1..], c[1..]); }
  }

  lemma {:induction false} LessTotal(a: seq<int>, b: seq<int>)
    ensures Less(a, b) || a == b || Less(b, a)
    decreases |a|
  {
    if a != [] && b != [] && a[0] == b[0] {
      LessTotal(a[1..], b[1..]);
      assert a == [a[0]] + a[1..] && b == [b[0]] + b[1..];
    }
  }

  /** A common prefix does not matter. */
  lemma {:induction false} LessAfterPrefix(p: seq<int>, a: seq<int>, b: seq<int>)
    ensures Less(p + a, p + b) <==> Less(a, b)
  {
    if p == [] {
      assert p + a == a && p + b == b;
    } else {
      LessAfterPrefix(p[1..], a, b);
      assert (p + a)[1..] == p[1..] + a && (p + b)[1..] == p[1..] + b;
    }
  }

  // ---------------------------------------------------------------- sorting

  function Insert<T(==)>(x: T, xs: seq<T>, key: T -> seq<int>): seq<T> {
    if xs == [] || Less(key(x), key(xs[0])) then [x] + xs else [xs[0]] + Insert(x, xs[1..], key)
  }

  /** sorted(xs, key=key): ascending, equal keys in their original order. */
  function Sort<T(==)>(xs: seq<T>, key: T -> seq<int>): seq<T> {
    if xs == [] then [] else Insert(xs[|xs| - 1], Sort(xs[..|xs| - 1], key), key)
  }

  ghost predicate Ascending<T>(xs: seq<T>, key: T -> seq<int>) {
    forall i, j :: 0 <= i < j < |xs| ==> Less(key(xs[i]), key(xs[j]))
  }

  ghost predicate DistinctKeys<T>(xs: seq<T>, key: T -> seq<int>) {
    forall i, j :: 0 <= i < j < |xs| ==> key(xs[i]) != key(xs[j])
  }

  lemma {:induction false} InsertMembers<T>(x: T, xs: seq<T>, key: T -> seq<int>)
    ensures multiset(Insert(x, xs, key)) == multiset(xs) + multiset{x}
  {
    if xs != [] && !Less(key(x), key(xs[0])) {
      InsertMembers(x, xs[1..], key);
      assert xs == [xs[0]] + xs[1..];
    }
  }

  lemma {:induction false} SortMembers<T>(xs: seq<T>, key: T -> seq<int>)
    ensures multiset(Sort(xs, key)) == multiset(xs)
  {
    if xs != [] {
      var k := |xs| - 1;
      SortMembers(xs[..k], key);
      InsertMembers(xs[k], Sort(xs[..k], key), key);
      assert xs == xs[..k] + [xs[k]];
    }
  }

  lemma {:induction false} InsertAscending<T>(x: T, xs: seq<T>, key: T -> seq<int>)
    requires Ascending(xs, key) && forall i :: 0 <= i < |xs| ==> key(xs[i]) != key(x)
    ensures Ascending(Insert(x, xs, key), key)
  {
    if xs == [] {
    } else if Less(key(x), key(xs[0])) {
      forall i | 1 <= i < |xs| ensures Less(key(x), key(xs[i])) {
        LessTransitive(key(x), key(xs[0]), key(xs[i]));
      }
    } else {
      LessTotal(key(x), key(xs[0]));
      InsertAscending(x, xs[1..], key);
      var rest := Insert(x, xs[1..], key);
      InsertMembers(x, xs[1..], key);
      forall i | 0 <= i < |rest| ensures Less(key(xs[0]), key(rest[i])) {
        assert rest[i] in multiset(rest);
        if rest[i] != x {
          assert rest[i] in multiset(xs[1..]);
          var j :| 0 <= j < |xs[1..]| && xs[1..][j] == rest[i];
          assert xs[j + 1] == rest[i];
        }
      }
    }
  }

  lemma {:induction false} SortAscending<T>(xs: seq<T>, key: T -> seq<int>)
    requires DistinctKeys(xs, key)
    ensures Ascending(Sort(xs, key), key)
  {
    if xs != [] {
      var k := |xs| - 1;
      SortAscending(xs[..k], key);
      SortMembers(xs[..k], key);
      var s := Sort(xs[..k], key);
      forall i | 0 <= i < |s| ensures key(s[i]) != key(xs[k]) {
        assert s[i] in multiset(s);
        assert s[i] in xs[..k];
      }
      InsertAscending(xs[k], s, key);
    }
  }

  /** No element's key comes strictly before that of an earlier one. */
  ghost predicate InOrder<T>(xs: seq<T>, key: T -> seq<int>) {
    forall i, j :: 0 <= i < j < |xs| ==> !Less(key(xs[j]), key(xs[i]))
  }

  lemma {:induction false} InsertInOrder<T>(x: T, xs: seq<T>, key: T -> seq<int>)
    requires InOrder(xs, key)
    ensures InOrder(Insert(x, xs, key), key)
  {
    hide Less;
    if xs == [] {
    } else if Less(key(x), key(xs[0])) {
      forall i | 0 <= i < |xs| ensures !Less(key(xs[i]), key(x)) {
        if Less(key(xs[i]), key(x)) {
          LessTransitive(key(xs[i]), key(x), key(xs[0]));
          LessIrreflexive(key(xs[0]));
        }
      }
    } else {
      InsertInOrder(x, xs[1..], key);
      var rest := Insert(x, xs[1..], key);
      InsertMembers(x, xs[1..], key);
      forall i | 0 <= i < |rest| ensures !Less(key(rest[i]), key(xs[0])) {
        assert rest[i] in multiset(rest);
        if rest[i] != x {
          assert rest[i] in multiset(xs[1..]);
          var j :| 0 <= j < |xs[1..]| && xs[1..][j] == rest[i];
          assert xs[j + 1] == rest[i];
        }
      }
    }
  }

  /** Sorting puts the elements in order, whatever their keys. */
  lemma {:induction false} SortInOrder<T>(xs: seq<T>, key: T -> seq<int>)
    ensures InOrder(Sort(xs, key), key)
  {
    hide Less;
    if xs != [] {
      var k := |xs| - 1;
      SortInOrder(xs[..k], key);
      InsertInOrder(xs[k], Sort(xs[..k], key), key);
    }
  }

  lemma SameHead<T>(xs: seq<T>, ys: seq<T>, key: T -> seq<int>)
    requires Ascending(xs, key) && Ascending(ys, key) && multiset(xs) == multiset(ys) && xs != [] && ys != []
    ensures xs[0] == ys[0]
  {
    hide Less;
    assert xs[0] in multiset(ys) && ys[0] in multiset(xs);
    var i :| 0 <= i < |ys| && ys[i] == xs[0];
    var j :| 0 <= j < |xs| && xs[j] == ys[0];
    if i > 0 && j > 0 {
      LessTransitive(key(xs[0]), key(ys[0]), key(xs[0]));
      LessIrreflexive(key(xs[0]));
    }
  }

  lemma TailMembers<T>(xs: seq<T>)
    requires xs != []
    ensures multiset(xs[1..]) == multiset(xs) - multiset{xs[0]}
  {
    assert xs == [xs[0]] + xs[1..];
  }

  /** Ascending sequences of the same elements are the same sequence. */
  lemma {:induction false} AscendingUnique<T>(xs: seq<T>, ys: seq<T>, key: T -> seq<int>)
    requires Ascending(xs, key) && Ascending(ys, key) && multiset(xs) == multiset(ys)
    ensures xs == ys
  {
    hide Less;
    assert |multiset(xs)| == |xs| && |multiset(ys)| == |ys|;
    if xs != [] {
      SameHead(xs, ys, key);
      TailMembers(xs); TailMembers(ys);
      AscendingUnique(xs[1..], ys[1..], key);
      assert xs == [xs[0]] + xs[1..] && ys == [ys[0]] + ys[1..];
    }
  }

  /** Sorting forgets the original order, when no two keys are equal. */
  lemma SortForgetsOrder<T>(xs: seq<T>, ys: seq<T>, key: T -> seq<int>)
    requires DistinctKeys(xs, key) && DistinctKeys(ys, key) && multiset(xs) == multiset(ys)
    ensures Sort(xs, key) == Sort(ys, key)
  {
    SortAscending(xs, key); SortAscending(ys, key);
    SortMembers(xs, key); SortMembers(ys, key);
    AscendingUnique(Sort(xs, key), Sort(ys, key), key);
  }

  lemma DistinctKeysPermuted<T>(xs: seq<T>, ys: seq<T>, key: T -> seq<int>)
    requires DistinctKeys(xs, key) && multiset(xs) == multiset(ys)
    ensures DistinctKeys(ys, key)
  {
    forall i, j | 0 <= i < j < |ys| ensures key(ys[i]) != key(ys[j]) {
      if key(ys[i]) == key(ys[j]) {
        Twice(ys, i, j);
        assert ys[i] in multiset(ys) && ys[j] in multiset(ys);
        assert ys[i] in xs && ys[j] in xs;
        var a :| 0 <= a < |xs| && xs[a] == ys[i];
        var b :| 0 <= b < |xs| && xs[b] == ys[j];
        assert a == b;
        assert multiset(xs)[ys[i]] >= 2;
        AtMostOnce(xs, a, key);
      }
    }
  }

  lemma Twice<T>(ys: seq<T>, i: int, j: int)
    requires 0 <= i < j < |ys|
    ensures ys[i] == ys[j] ==> multiset(ys)[ys[i]] >= 2
  {
    assert ys == ys[..j] + [ys[j]] + ys[j + 1..];
    assert ys[i] in ys[..j];
  }

  lemma AtMostOnce<T>(xs: seq<T>, a: int, key: T -> seq<int>)
    requires DistinctKeys(xs, key) && 0 <= a < |xs|
    ensures multiset(xs)[xs[a]] == 1
  {
    assert xs == xs[..a] + [xs[a]] + xs[a + 1..];
    assert xs[a] !in xs[..a] && xs[a] !in xs[a + 1..];
  }

  /** With distinct keys, having the same elements is being permutations of each other. */
  lemma SameElements<T>(xs: seq<T>, ys: seq<T>, key: T -> seq<int>)
    requires DistinctKeys(xs, key) && DistinctKeys(ys, key)
    requires forall x :: x in xs <==> x in ys
    ensures multiset(xs) == multiset(ys)
  {
    forall x ensures multiset(xs)[x] == multiset(ys)[x] {
      if x in xs {
        var i :| 0 <= i < |xs| && xs[i] == x;
        assert x in ys;
        var j :| 0 <= j < |ys| && ys[j] == x;
        AtMostOnce(xs, i, key);
        AtMostOnce(ys, j, key);
      }
    }
  }

  /** Sorting keeps keys distinct and elements the same. */
  lemma SortKeeps<T>(xs: seq<T>, key: T -> seq<int>)
    requires DistinctKeys(xs, key)
    ensures DistinctKeys(Sort(xs, key), key)
    ensures forall x :: x in Sort(xs, key) <==> x in xs
  {
    SortMembers(xs, key);
    DistinctKeysPermuted(xs, Sort(xs, key), key);
    forall x ensures x in Sort(xs, key) <==> x in xs {
      assert x in Sort(xs, key) <==> x in multiset(Sort(xs, key));
    }
  }
}
