/** The integrity text of a release: its artifact descriptors, sorted by name. */
module ArtifactDescriptors {
  import opened Ordering
  import opened Unicode
  import opened CanonicalJson
  import JsonReader
  import opened TextAgreement

  predicate Named(v: Json) { v.Obj? && "name" in v.fields && v.fields["name"].Str? }

  function NameKey(e: Encoding): Json -> Key { (v: Json) => if Named(v) then Encode(e, v.fields["name"].s) else [] }

  /** The schema sorts by UTF-16 units, the agent by UTF-8 bytes. */
  ghost function DescriptorText(e: Encoding, artifacts: seq<Json>): string
  {
    Canon(e, Arr(SortBy(artifacts, NameKey(e))))
  }

  // ----- Sorting is stable -----

  /** The elements with one key, in order. */
  function Class<T>(xs: seq<T>, key: T -> Key, k: Key): seq<T>
  {
    if xs == [] then [] else (if key(xs[0]) == k then [xs[0]] else []) + Class(xs[1..], key, k)
  }

  lemma {:induction false} ClassSnoc<T>(xs: seq<T>, x: T, key: T -> Key, k: Key)
    ensures Class(xs + [x], key, k) == Class(xs, key, k) + if key(x) == k then [x] else []
  {
    hide Class;
    if xs == [] {
      ClassNone(xs, key, k);
      ClassCons(x, xs, key, k);
      assert xs + [x] == [x] + xs;
    } else {
      ClassSnoc(xs[1..], x, key, k);
      ClassCons(xs[0], xs[1..], key, k);
      ClassCons(xs[0], xs[1..] + [x], key, k);
      assert xs == [xs[0]] + xs[1..] && xs + [x] == [xs[0]] + (xs[1..] + [x]);
    }
  }

  lemma {:induction false} ClassNone<T>(xs: seq<T>, key: T -> Key, k: Key)
    requires forall i :: 0 <= i < |xs| ==> key(xs[i]) != k
    ensures Class(xs, key, k) == []
  {
    if xs != [] {
      assert forall i :: 0 <= i < |xs[1..]| ==> xs[1..][i] == xs[i + 1];
      ClassNone(xs[1..], key, k);
    }
  }

  lemma ClassBelow<T>(xs: seq<T>, key: T -> Key, k: Key)
    requires xs != [] && Sorted(xs, key) && Less(k, key(xs[0]))
    ensures Class(xs, key, k) == []
  {
    hide Less;
    LessIrreflexive(k);
    forall i | 0 <= i < |xs| ensures key(xs[i]) != k {
      if key(xs[0]) != key(xs[i]) { LessTransitive(k, key(xs[0]), key(xs[i])); }
    }
    ClassNone(xs, key, k);
  }

  lemma ClassCons<T>(x: T, xs: seq<T>, key: T -> Key, k: Key)
    ensures Class([x] + xs, key, k) == (if key(x) == k then [x] else []) + Class(xs, key, k)
  {
    assert ([x] + xs)[1..] == xs;
  }

  lemma SortedTail<T>(xs: seq<T>, key: T -> Key)
    requires xs != [] && Sorted(xs, key)
    ensures Sorted(xs[1..], key)
  {
    hide Less;
  }

  lemma {:induction false} ClassInsert<T>(x: T, xs: seq<T>, key: T -> Key, k: Key)
    requires Sorted(xs, key)
    ensures Class(Insert(x, xs, key), key, k) == Class(xs, key, k) + if key(x) == k then [x] else []
  {
    hide Less, Sorted, Class;
    if xs == [] {
      ClassCons(x, [], key, k);
      ClassNone([], key, k);
      assert [x] + [] == [x];
    } else if Less(key(x), key(xs[0])) {
      ClassCons(x, xs, key, k);
      if key(x) == k { ClassBelow(xs, key, k); }
    } else {
      SortedTail(xs, key);
      ClassInsert(x, xs[1..], key, k);
      ClassCons(xs[0], Insert(x, xs[1..], key), key, k);
      ClassCons(xs[0], xs[1..], key, k);
      assert [xs[0]] + xs[1..] == xs;
      assert Insert(x, xs, key) == [xs[0]] + Insert(x, xs[1..], key);
    }
  }

  lemma {:induction false} SortByStable<T>(xs: seq<T>, key: T -> Key, k: Key)
    ensures Class(SortBy(xs, key), key, k) == Class(xs, key, k)
  {
    if xs != [] {
      var n := |xs| - 1;
      assert xs == xs[..n] + [xs[n]];
      SortByStable(xs[..n], key, k);
      SortBySorted(xs[..n], key);
      ClassInsert(xs[n], SortBy(xs[..n], key), key, k);
      ClassSnoc(xs[..n], xs[n], key, k);
    }
  }

  // ----- What the text identifies -----

  /** Descriptors with one name are one descriptor. */
  ghost predicate NamesDecide(e: Encoding, artifacts: seq<Json>)
  {
    forall i, j :: 0 <= i < j < |artifacts| && NameKey(e)(artifacts[i]) == NameKey(e)(artifacts[j]) ==>
                     artifacts[i] == artifacts[j]
  }

  ghost predicate OrderIndependent(e: Encoding, artifacts: seq<Json>)
  {
    forall other :: multiset(other) == multiset(artifacts) ==> DescriptorText(e, other) == DescriptorText(e, artifacts)
  }

  /** With distinct names, two lists have one text exactly when they hold the same descriptors. */
  lemma TextBindsDescriptors(e: Encoding, a: seq<Json>, b: seq<Json>)
    requires DistinctKeys(a, NameKey(e)) && DistinctKeys(b, NameKey(e))
    ensures DescriptorText(e, a) == DescriptorText(e, b) <==> multiset(a) == multiset(b)
  {
    var x, y := SortBy(a, NameKey(e)), SortBy(b, NameKey(e));
    JsonReader.CanonInjective(e, Arr(x), Arr(y));
    if multiset(a) == multiset(b) {
      SameElements(x, y);
      SortBySorted(a, NameKey(e));
      SortBySorted(b, NameKey(e));
      DistinctPermutation(a, x, NameKey(e));
      DistinctPermutation(b, y, NameKey(e));
      SortedDistinctIsStrict(x, NameKey(e));
      SortedDistinctIsStrict(y, NameKey(e));
      StrictlySortedUnique(x, y, NameKey(e));
    }
  }

  /** Equal keys belong to equal elements. */
  ghost predicate KeysDecide(x: seq<Json>, key: Json -> Key)
  {
    forall i, j :: 0 <= i < |x| && 0 <= j < |x| && key(x[i]) == key(x[j]) ==> x[i] == x[j]
  }

  lemma LeastFirst(x: seq<Json>, v: Json, key: Json -> Key)
    requires Sorted(x, key) && v in x
    ensures AtMost(key(x[0]), key(v))
  {
    hide Less;
    var i :| 0 <= i < |x| && x[i] == v;
  }

  lemma SameHeads(x: seq<Json>, y: seq<Json>, key: Json -> Key)
    requires x != [] && y != [] && Sorted(x, key) && Sorted(y, key) && multiset(x) == multiset(y) && KeysDecide(x, key)
    ensures x[0] == y[0]
  {
    hide Less, Sorted;
    assert x[0] in multiset(y) && y[0] in multiset(x);
    LeastFirst(x, y[0], key);
    LeastFirst(y, x[0], key);
    if key(x[0]) != key(y[0]) { LessAsymmetric(key(x[0]), key(y[0])); }
    var j :| 0 <= j < |x| && x[j] == y[0];
    assert key(x[0]) == key(x[j]);
  }

  lemma SameTails(x: seq<Json>, y: seq<Json>)
    requires x != [] && y != [] && x[0] == y[0] && multiset(x) == multiset(y)
    ensures multiset(x[1..]) == multiset(y[1..])
  {
    assert x == [x[0]] + x[1..] && y == [y[0]] + y[1..];
    assert multiset(x[1..]) == multiset(x) - multiset{x[0]};
    assert multiset(y[1..]) == multiset(y) - multiset{y[0]};
  }

  /** A sorted list whose keys decide its elements is determined by its multiset. */
  lemma {:induction false} SortedUnique(x: seq<Json>, y: seq<Json>, key: Json -> Key)
    requires Sorted(x, key) && Sorted(y, key) && multiset(x) == multiset(y) && KeysDecide(x, key)
    ensures x == y
  {
    hide Sorted;
    assert |x| == |multiset(x)| == |multiset(y)| == |y|;
    if x != [] {
      SameHeads(x, y, key);
      SameTails(x, y);
      SortedTail(x, key);
      SortedTail(y, key);
      assert KeysDecide(x[1..], key);
      SortedUnique(x[1..], y[1..], key);
      assert x == [x[0]] + x[1..] && y == [y[0]] + y[1..];
    }
  }

  /** `i` moved to the front. */
  function Front(xs: seq<Json>, i: nat): seq<Json>
    requires i < |xs|
  {
    [xs[i]] + (xs[..i] + xs[i + 1..])
  }

  lemma FrontOf(xs: seq<Json>, i: nat, key: Json -> Key)
    requires i < |xs|
    ensures multiset(Front(xs, i)) == multiset(xs)
    ensures Class(SortBy(Front(xs, i), key), key, key(xs[i])) != []
    ensures Class(SortBy(Front(xs, i), key), key, key(xs[i]))[0] == xs[i]
  {
    assert xs == xs[..i] + [xs[i]] + xs[i + 1..];
    SortByStable(Front(xs, i), key, key(xs[i]));
  }

  lemma DecidesRearranged(e: Encoding, artifacts: seq<Json>, x: seq<Json>)
    requires NamesDecide(e, artifacts) && multiset(x) == multiset(artifacts)
    ensures KeysDecide(x, NameKey(e))
  {
    hide NameKey;
    var key := NameKey(e);
    SameElements(artifacts, x);
    forall i, j | 0 <= i < |x| && 0 <= j < |x| && key(x[i]) == key(x[j]) ensures x[i] == x[j] {
      assert x[i] in Elements(x) && x[j] in Elements(x);
      var k :| 0 <= k < |artifacts| && artifacts[k] == x[i];
      var l :| 0 <= l < |artifacts| && artifacts[l] == x[j];
      assert key(artifacts[k]) == key(artifacts[l]);
    }
  }

  lemma DecidedIsIndependent(e: Encoding, artifacts: seq<Json>, other: seq<Json>)
    requires NamesDecide(e, artifacts) && multiset(other) == multiset(artifacts)
    ensures DescriptorText(e, other) == DescriptorText(e, artifacts)
  {
    hide Sorted, Canon, NameKey, NamesDecide, KeysDecide, SortBy;
    var key := NameKey(e);
    var x, y := SortBy(artifacts, key), SortBy(other, key);
    SortBySorted(artifacts, key);
    SortBySorted(other, key);
    DecidesRearranged(e, artifacts, x);
    SortedUnique(x, y, key);
  }

  lemma OrderShows(e: Encoding, artifacts: seq<Json>, i: nat, j: nat)
    requires i < j < |artifacts| && NameKey(e)(artifacts[i]) == NameKey(e)(artifacts[j]) && artifacts[i] != artifacts[j]
    ensures !OrderIndependent(e, artifacts)
  {
    hide Canon, Class;
    var key := NameKey(e);
    FrontOf(artifacts, i, key);
    FrontOf(artifacts, j, key);
    JsonReader.CanonInjective(e, Arr(SortBy(Front(artifacts, i), key)), Arr(SortBy(Front(artifacts, j), key)));
    assert DescriptorText(e, Front(artifacts, i)) != DescriptorText(e, Front(artifacts, j));
  }

  /**
   Listing the artifacts in another order never changes the text exactly when no two different ones share a name:
   sorting is stable, so among equal names the order of the list would show.
   */
  lemma OrderIndependentIff(e: Encoding, artifacts: seq<Json>)
    ensures OrderIndependent(e, artifacts) <==> NamesDecide(e, artifacts)
  {
    hide DescriptorText;
    if NamesDecide(e, artifacts) {
      forall other | multiset(other) == multiset(artifacts)
        ensures DescriptorText(e, other) == DescriptorText(e, artifacts)
      {
        DecidedIsIndependent(e, artifacts, other);
      }
    } else {
      var i, j :| 0 <= i < j < |artifacts| && NameKey(e)(artifacts[i]) == NameKey(e)(artifacts[j])
                  && artifacts[i] != artifacts[j];
      OrderShows(e, artifacts, i, j);
    }
  }

  // ----- The agent recomputes the schema's text -----

  /** What the schema guarantees: names of ASCII characters, and no other than ASCII keys. */
  ghost predicate AsciiDescriptor(v: Json)
  {
    Named(v) && Over(v.fields["name"].s, Ascii()) && KeysWithin(v, Ascii())
  }

  ghost predicate SameOrder<T>(xs: seq<T>, k: T -> Key, l: T -> Key)
  {
    forall i, j :: 0 <= i < |xs| && 0 <= j < |xs| ==> (Less(k(xs[i]), k(xs[j])) <==> Less(l(xs[i]), l(xs[j])))
  }

  lemma {:induction false} InsertAgree<T>(x: T, xs: seq<T>, k: T -> Key, l: T -> Key)
    requires SameOrder([x] + xs, k, l)
    ensures Insert(x, xs, k) == Insert(x, xs, l)
  {
    hide Less;
    var all := [x] + xs;
    if xs != [] {
      assert all[0] == x && all[1] == xs[0];
      assert Less(k(x), k(xs[0])) <==> Less(l(x), l(xs[0]));
      forall i, j | 0 <= i < |xs| && 0 <= j < |xs|
        ensures Less(k(([x] + xs[1..])[i]), k(([x] + xs[1..])[j])) <==>
            Less(l(([x] + xs[1..])[i]), l(([x] + xs[1..])[j]))
      {
        assert ([x] + xs[1..])[i] == all[if i == 0 then 0 else i + 1];
        assert ([x] + xs[1..])[j] == all[if j == 0 then 0 else j + 1];
      }
      InsertAgree(x, xs[1..], k, l);
    }
  }

  lemma SameOrderElements<T>(xs: seq<T>, ys: seq<T>, k: T -> Key, l: T -> Key)
    requires SameOrder(xs, k, l) && forall y :: y in ys ==> y in xs
    ensures SameOrder(ys, k, l)
  {
    hide Less;
    forall i, j | 0 <= i < |ys| && 0 <= j < |ys|
      ensures Less(k(ys[i]), k(ys[j])) <==> Less(l(ys[i]), l(ys[j]))
    {
      assert ys[i] in xs && ys[j] in xs;
      var p :| 0 <= p < |xs| && xs[p] == ys[i];
      var q :| 0 <= q < |xs| && xs[q] == ys[j];
      assert Less(k(xs[p]), k(xs[q])) <==> Less(l(xs[p]), l(xs[q]));
    }
  }

  /** Two keys that order the elements alike sort them alike. */
  lemma {:induction false} SortAgree<T>(xs: seq<T>, k: T -> Key, l: T -> Key)
    requires SameOrder(xs, k, l)
    ensures SortBy(xs, k) == SortBy(xs, l)
  {
    hide SameOrder, Insert;
    if xs != [] {
      var n := |xs| - 1;
      assert xs == xs[..n] + [xs[n]];
      SameOrderElements(xs, xs[..n], k, l);
      SortAgree(xs[..n], k, l);
      var r := SortBy(xs[..n], k);
      SameElements(xs[..n], r);
      forall y | y in [xs[n]] + r ensures y in xs {
        assert y == xs[n] || y in Elements(r);
      }
      SameOrderElements(xs, [xs[n]] + r, k, l);
      InsertAgree(xs[n], r, k, l);
    }
  }

  lemma DescriptorsAgree(artifacts: seq<Json>)
    requires forall v :: v in artifacts ==> AsciiDescriptor(v)
    ensures DescriptorText(Utf8, artifacts) == DescriptorText(Utf16, artifacts)
  {
    hide KeysWithin;
    var x := SortBy(artifacts, NameKey(Utf8));
    forall i, j | 0 <= i < |artifacts| && 0 <= j < |artifacts|
      ensures Less(NameKey(Utf8)(artifacts[i]), NameKey(Utf8)(artifacts[j]))
         <==> Less(NameKey(Utf16)(artifacts[i]), NameKey(Utf16)(artifacts[j]))
    {
      assert artifacts[i] in artifacts && artifacts[j] in artifacts;
      EncodeOrder(Utf8, artifacts[i].fields["name"].s, artifacts[j].fields["name"].s, Ascii());
      EncodeOrder(Utf16, artifacts[i].fields["name"].s, artifacts[j].fields["name"].s, Ascii());
    }
    SortAgree(artifacts, NameKey(Utf8), NameKey(Utf16));
    SameElements(artifacts, x);
    forall v | v in x ensures KeysWithin(v, Ascii()) {
      assert v in Elements(x);
    }
    ArrayKeys(x);
    CanonAgree(Arr(x), Ascii());
  }

  lemma ArrayKeys(items: seq<Json>)
    requires forall v :: v in items ==> KeysWithin(v, Ascii())
    ensures KeysWithin(Arr(items), Ascii())
  {
  }
}
