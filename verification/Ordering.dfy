/**
 Lexicographic order on sequences of code units, and sorting by a key in that order.
 JavaScript string comparison, Rust `str` comparison and SQLite's BINARY collation are all
 instances: they differ only in the code units of the key.
 */
module Ordering {
  type Key = seq<nat>

  predicate Less(a: Key, b: Key)
  {
    b != [] && (a == [] || a[0] < b[0] || (a[0] == b[0] && Less(a[1..], b[1..])))
  }

  predicate AtMost(a: Key, b: Key) { a == b || Less(a, b) }

  lemma {:induction false} LessIrreflexive(a: Key)
    ensures !Less(a, a)
  {
    if a != [] { LessIrreflexive(a[1..]); }
  }

  lemma {:induction false} LessTransitive(a: Key, b: Key, c: Key)
    requires Less(a, b) && Less(b, c)
    ensures Less(a, c)
  {
    if a != [] && a[0] == b[0] == c[0] { LessTransitive(a[1..], b[1..], c[1..]); }
  }

  lemma LessAsymmetric(a: Key, b: Key)
    requires Less(a, b)
    ensures !Less(b, a) && a != b
  {
    LessIrreflexive(a);
    if Less(b, a) { LessTransitive(a, b, a); }
  }

  lemma {:induction false} LessTotal(a: Key, b: Key)
    ensures a == b || Less(a, b) || Less(b, a)
  {
    if a != [] && b != [] && a[0] == b[0] {
      LessTotal(a[1..], b[1..]);
      assert a == [a[0]] + a[1..] && b == [b[0]] + b[1..];
    }
  }

  /** Dropping a common prefix does not change the order. */
  lemma {:induction false} LessCommonPrefix(p: Key, a: Key, b: Key)
    ensures Less(p + a, p + b) <==> Less(a, b)
  {
    if p == [] {
      assert p + a == a && p + b == b;
    } else {
      assert (p + a)[1..] == p[1..] + a && (p + b)[1..] == p[1..] + b;
      LessCommonPrefix(p[1..], a, b);
    }
  }

  ghost predicate Sorted<T>(xs: seq<T>, key: T -> Key)
  {
    forall i, j :: 0 <= i < j < |xs| ==> AtMost(key(xs[i]), key(xs[j]))
  }

  ghost predicate StrictlySorted<T>(xs: seq<T>, key: T -> Key)
  {
    forall i, j :: 0 <= i < j < |xs| ==> Less(key(xs[i]), key(xs[j]))
  }

  ghost function Elements<T>(xs: seq<T>): set<T> { set x | x in xs }

  ghost predicate InjectiveOn<T>(s: set<T>, key: T -> Key)
  {
    forall x, y :: x in s && y in s && key(x) == key(y) ==> x == y
  }

  lemma ElementsCons<T>(h: T, t: seq<T>)
    ensures Elements([h] + t) == {h} + Elements(t)
  {
    forall x | x in {h} + Elements(t) ensures x in [h] + t {
      if x == h { assert ([h] + t)[0] == x; }
    }
  }

  lemma ElementsSnoc<T>(t: seq<T>, h: T)
    ensures Elements(t + [h]) == Elements(t) + {h}
  {
    forall x | x in Elements(t) + {h} ensures x in t + [h] {
      if x == h { assert (t + [h])[|t|] == x; }
    }
  }

  lemma NoElements<T>(xs: seq<T>)
    ensures Elements(xs) == {} <==> xs == []
  {
    if xs != [] { assert xs[0] in Elements(xs); }
  }

  /** A strictly sorted sequence is determined by its set of elements. */
  lemma {:induction false} StrictlySortedUnique<T>(xs: seq<T>, ys: seq<T>, key: T -> Key)
    requires StrictlySorted(xs, key) && StrictlySorted(ys, key)
    requires Elements(xs) == Elements(ys)
    ensures xs == ys
  {
    NoElements(xs);
    NoElements(ys);
    if xs != [] {
      assert xs[0] in Elements(ys) && ys[0] in Elements(xs) by {
        assert xs[0] in Elements(xs) && ys[0] in Elements(ys);
      }
      if xs[0] != ys[0] {
        assert Less(key(ys[0]), key(xs[0])) && Less(key(xs[0]), key(ys[0]));
        LessAsymmetric(key(ys[0]), key(xs[0]));
      }
      TailElements(xs, key);
      TailElements(ys, key);
      StrictlySortedUnique(xs[1..], ys[1..], key);
      assert xs == [xs[0]] + xs[1..] && ys == [ys[0]] + ys[1..];
    }
  }

  lemma TailElements<T>(xs: seq<T>, key: T -> Key)
    requires xs != [] && StrictlySorted(xs, key)
    ensures StrictlySorted(xs[1..], key)
    ensures Elements(xs[1..]) == Elements(xs) - {xs[0]}
  {
    LessIrreflexive(key(xs[0]));
    forall x | x in Elements(xs) - {xs[0]} ensures x in Elements(xs[1..]) {
      var i :| 0 <= i < |xs| && xs[i] == x;
      assert xs[1..][i - 1] == x;
    }
    forall x | x in Elements(xs[1..]) ensures x in Elements(xs) - {xs[0]} {
      var i :| 0 <= i < |xs[1..]| && xs[1..][i] == x;
      assert xs[i + 1] == x;
    }
  }

  ghost predicate IsLeast<T>(m: T, s: set<T>, key: T -> Key)
  {
    m in s && forall x :: x in s && x != m ==> Less(key(m), key(x))
  }

  lemma {:induction false} LeastExists<T>(s: set<T>, key: T -> Key) returns (m: T)
    requires s != {} && InjectiveOn(s, key)
    ensures IsLeast(m, s, key)
    decreases |s|
  {
    var x :| x in s;
    if s - {x} == {} {
      assert s == {x};
      return x;
    }
    var y := LeastExists(s - {x}, key);
    LessTotal(key(x), key(y));
    if Less(key(x), key(y)) {
      m := x;
      forall z | z in s && z != x ensures Less(key(x), key(z)) {
        if z != y { LessTransitive(key(x), key(y), key(z)); }
      }
    } else {
      m := y;
    }
  }

  /** The elements of a set in increasing key order. */
  ghost function SortSet<T>(s: set<T>, key: T -> Key): (xs: seq<T>)
    requires InjectiveOn(s, key)
    ensures StrictlySorted(xs, key) && Elements(xs) == s
    decreases |s|
  {
    if s == {} then [] else
      assert exists m :: m in s && IsLeast(m, s, key) by { var m := LeastExists(s, key); }
      var m :| m in s && IsLeast(m, s, key);
      var rest := SortSet(s - {m}, key);
      SortSetStep(s, m, rest, key);
      [m] + rest
  }

  lemma SortSetStep<T>(s: set<T>, m: T, rest: seq<T>, key: T -> Key)
    requires IsLeast(m, s, key) && StrictlySorted(rest, key) && Elements(rest) == s - {m}
    ensures StrictlySorted([m] + rest, key) && Elements([m] + rest) == s
  {
    forall i, j | 0 <= i < j < |[m] + rest| ensures Less(key(([m] + rest)[i]), key(([m] + rest)[j])) {
      if i == 0 { assert rest[j - 1] in Elements(rest); }
    }
    forall x | x in s ensures x in Elements([m] + rest) {
      if x != m {
        assert x in Elements(rest);
      } else {
        assert ([m] + rest)[0] == x;
      }
    }
    forall x | x in Elements([m] + rest) ensures x in s {
      if x != m { assert x in Elements(rest); }
    }
  }

  /** Inserting after every element that is not greater keeps the sort stable. */
  function Insert<T>(x: T, xs: seq<T>, key: T -> Key): (r: seq<T>)
    ensures multiset(r) == multiset{x} + multiset(xs)
  {
    if xs == [] then [x]
    else if Less(key(x), key(xs[0])) then [x] + xs
    else
      assert xs == [xs[0]] + xs[1..];
      [xs[0]] + Insert(x, xs[1..], key)
  }

  /** `Array.prototype.sort` and `slice::sort_by`: a stable sort by key. */
  function SortBy<T>(xs: seq<T>, key: T -> Key): (r: seq<T>)
    ensures multiset(r) == multiset(xs) && |r| == |xs|
  {
    if xs == [] then [] else
      assert xs == xs[..|xs| - 1] + [xs[|xs| - 1]];
      var r := Insert(xs[|xs| - 1], SortBy(xs[..|xs| - 1], key), key);
      assert |r| == |multiset(r)| == |multiset(xs)| == |xs|;
      r
  }

  lemma {:induction false} InsertSorted<T>(x: T, xs: seq<T>, key: T -> Key)
    requires Sorted(xs, key)
    ensures Sorted(Insert(x, xs, key), key)
  {
    if xs != [] {
      LessTotal(key(x), key(xs[0]));
      if Less(key(x), key(xs[0])) {
        forall j | 0 <= j < |xs| ensures AtMost(key(x), key(xs[j])) {
          if j > 0 && key(xs[0]) != key(xs[j]) { LessTransitive(key(x), key(xs[0]), key(xs[j])); }
        }
      } else {
        var r := Insert(x, xs[1..], key);
        InsertSorted(x, xs[1..], key);
        forall j | 0 <= j < |r| ensures AtMost(key(xs[0]), key(r[j])) {
          assert r[j] in multiset(r);
          assert r[j] == x || r[j] in xs[1..];
        }
      }
    }
  }

  lemma {:induction false} SortBySorted<T>(xs: seq<T>, key: T -> Key)
    ensures Sorted(SortBy(xs, key), key)
  {
    if xs != [] {
      SortBySorted(xs[..|xs| - 1], key);
      InsertSorted(xs[|xs| - 1], SortBy(xs[..|xs| - 1], key), key);
    }
  }

  ghost predicate DistinctKeys<T>(xs: seq<T>, key: T -> Key)
  {
    forall i, j :: 0 <= i < j < |xs| ==> key(xs[i]) != key(xs[j])
  }

  lemma SortedDistinctIsStrict<T>(xs: seq<T>, key: T -> Key)
    requires Sorted(xs, key) && DistinctKeys(xs, key)
    ensures StrictlySorted(xs, key)
  {}

  lemma {:induction false} DistinctOnce<T>(xs: seq<T>, x: T, key: T -> Key)
    requires DistinctKeys(xs, key)
    ensures multiset(xs)[x] <= 1
  {
    if xs != [] {
      var n := |xs| - 1;
      assert xs == xs[..n] + [xs[n]];
      DistinctOnce(xs[..n], x, key);
      if xs[n] == x {
        assert x !in xs[..n];
        assert multiset(xs[..n])[x] == 0;
      }
    }
  }

  /** Rearranging a list keeps its keys distinct. */
  lemma DistinctPermutation<T>(xs: seq<T>, ys: seq<T>, key: T -> Key)
    requires multiset(xs) == multiset(ys) && DistinctKeys(xs, key)
    ensures DistinctKeys(ys, key)
  {
    SameElements(xs, ys);
    forall i, j | 0 <= i < j < |ys| ensures key(ys[i]) != key(ys[j]) {
      assert ys[i] in Elements(ys) && ys[j] in Elements(ys);
      if ys[i] == ys[j] {
        assert ys == ys[..j] + [ys[j]] + ys[j + 1..];
        assert ys[i] in ys[..j];
        DistinctOnce(xs, ys[j], key);
      }
    }
  }

  lemma SameElements<T>(xs: seq<T>, ys: seq<T>)
    requires multiset(xs) == multiset(ys)
    ensures Elements(xs) == Elements(ys)
  {
    forall x ensures x in xs <==> x in ys {
      assert x in xs <==> x in multiset(xs);
      assert x in ys <==> x in multiset(ys);
    }
  }

  /** Enumerates a set and sorts it. */
  method SortElements<T(==)>(s: set<T>, key: T -> Key) returns (xs: seq<T>)
    requires InjectiveOn(s, key)
    ensures xs == SortSet(s, key)
  {
    var todo, found := s, [];
    while todo != {}
      invariant todo <= s && Elements(found) == s - todo
      invariant DistinctKeys(found, key)
    {
      var x :| x in todo;
      forall i | 0 <= i < |found| ensures key(found[i]) != key(x) {
        assert found[i] in Elements(found);
      }
      ElementsSnoc(found, x);
      found, todo := found + [x], todo - {x};
    }
    xs := SortBy(found, key);
    SortBySorted(found, key);
    SameElements(found, xs);
    DistinctPermutation(found, xs, key);
    SortedDistinctIsStrict(xs, key);
    StrictlySortedUnique(xs, SortSet(s, key), key);
  }
}
