/**
 The normal form that makes every array of a capability declaration a set, and its two
 implementations: the recursive one of the manifest schema and the in-place one of the agent.
 */
module CapabilitySet {
  import opened Ordering
  import opened Unicode
  import opened CanonicalJson
  import JsonReader

  ghost function TextKey(e: Encoding): Json -> Key { (v: Json) => Encode(e, Canon(e, v)) }

  lemma TextKeyInjective(e: Encoding, s: set<Json>)
    ensures InjectiveOn(s, TextKey(e))
  {
    forall x, y | x in s && y in s && TextKey(e)(x) == TextKey(e)(y) ensures x == y {
      EncodeInjective(e, Canon(e, x), Canon(e, y));
      JsonReader.CanonInjective(e, x, y);
    }
  }

  /** The values of a set in the order of their canonical texts. */
  ghost function SortedValues(e: Encoding, s: set<Json>): (vs: seq<Json>)
    ensures StrictlySorted(vs, TextKey(e)) && Elements(vs) == s
  {
    TextKeyInjective(e, s);
    SortSet(s, TextKey(e))
  }

  ghost function NormSet(e: Encoding, v: Json): set<Json>
    requires v.Arr?
    decreases v, 0
  {
    set i | 0 <= i < |v.items| :: Norm(e, v.items[i])
  }

  /** Every array, at every depth, as a sorted list without repetitions. */
  ghost function Norm(e: Encoding, v: Json): Json
    decreases v, 1
  {
    match v
    case Arr(_) => Arr(SortedValues(e, NormSet(e, v)))
    case Obj(fields) => Obj(map k | k in fields :: Norm(e, fields[k]))
    case _ => v
  }

  // ----- What the normal form identifies -----

  /** Equality of nested sets: arrays up to order and repetition, objects by key. */
  ghost predicate SetEqual(a: Json, b: Json)
    decreases a, 1
  {
    match a
    case Arr(items) => b.Arr? && (forall x :: x in items ==> EqualToSome(x, b.items))
                       && (forall y :: y in b.items ==> SomeEqualTo(a, y))
    case Obj(fields) => b.Obj? && fields.Keys == b.fields.Keys && forall k :: k in fields ==>
        SetEqual(fields[k], b.fields[k])
    case _ => a == b
  }

  ghost predicate EqualToSome(x: Json, ys: seq<Json>)
    decreases x, 2
  {
    exists y :: y in ys && SetEqual(x, y)
  }

  ghost predicate SomeEqualTo(a: Json, y: Json)
    requires a.Arr?
    decreases a, 0
  {
    exists x :: x in a.items && SetEqual(x, y)
  }

  /** Two values have one normal form exactly when they are equal as nested sets. */
  lemma {:induction false} NormIdentity(e: Encoding, a: Json, b: Json)
    ensures Norm(e, a) == Norm(e, b) <==> SetEqual(a, b)
    decreases a
  {
    if a.Arr? && b.Arr? {
      forall x, y | x in a.items && y in b.items ensures Norm(e, x) == Norm(e, y) <==> SetEqual(x, y) {
        NormIdentity(e, x, y);
      }
      NormOfArrays(e, a, b);
      if SetEqual(a, b) { SetsFromEqual(e, a, b); }
      if NormSet(e, a) == NormSet(e, b) { EqualFromSets(e, a, b); }
    } else if a.Obj? && b.Obj? {
      forall k | k in a.fields && k in b.fields
        ensures Norm(e, a.fields[k]) == Norm(e, b.fields[k]) <==> SetEqual(a.fields[k], b.fields[k])
      {
        NormIdentity(e, a.fields[k], b.fields[k]);
      }
      ObjectIdentity(e, a, b);
    }
  }

  lemma InNormSet(e: Encoding, v: Json, x: Json)
    requires v.Arr? && x in v.items
    ensures Norm(e, x) in NormSet(e, v)
  {
    var i :| 0 <= i < |v.items| && v.items[i] == x;
  }

  ghost predicate Pointwise(e: Encoding, a: Json, b: Json)
    requires a.Arr? && b.Arr?
  {
    forall x, y :: x in a.items && y in b.items ==> (Norm(e, x) == Norm(e, y) <==> SetEqual(x, y))
  }

  lemma NormOfArrays(e: Encoding, a: Json, b: Json)
    requires a.Arr? && b.Arr?
    ensures Norm(e, a) == Norm(e, b) <==> NormSet(e, a) == NormSet(e, b)
  {
    assert Elements(SortedValues(e, NormSet(e, a))) == NormSet(e, a);
    assert Elements(SortedValues(e, NormSet(e, b))) == NormSet(e, b);
  }

  lemma FromNormSet(e: Encoding, v: Json, n: Json) returns (x: Json)
    requires v.Arr? && n in NormSet(e, v)
    ensures x in v.items && Norm(e, x) == n
  {
    var i :| 0 <= i < |v.items| && Norm(e, v.items[i]) == n;
    x := v.items[i];
  }

  lemma EqualFromSets(e: Encoding, a: Json, b: Json)
    requires a.Arr? && b.Arr? && Pointwise(e, a, b) && NormSet(e, a) == NormSet(e, b)
    ensures SetEqual(a, b)
  {
    forall x | x in a.items ensures EqualToSome(x, b.items) {
      InNormSet(e, a, x);
      var y := FromNormSet(e, b, Norm(e, x));
    }
    forall y | y in b.items ensures SomeEqualTo(a, y) {
      InNormSet(e, b, y);
      var x := FromNormSet(e, a, Norm(e, y));
    }
  }

  lemma SetsFromEqual(e: Encoding, a: Json, b: Json)
    requires a.Arr? && b.Arr? && Pointwise(e, a, b) && SetEqual(a, b)
    ensures NormSet(e, a) == NormSet(e, b)
  {
    forall n | n in NormSet(e, a) ensures n in NormSet(e, b) {
      var x := FromNormSet(e, a, n);
      assert EqualToSome(x, b.items);
      var y :| y in b.items && SetEqual(x, y);
      InNormSet(e, b, y);
    }
    forall n | n in NormSet(e, b) ensures n in NormSet(e, a) {
      var y := FromNormSet(e, b, n);
      assert SomeEqualTo(a, y);
      var x :| x in a.items && SetEqual(x, y);
      InNormSet(e, a, x);
    }
  }

  lemma ObjectIdentity(e: Encoding, a: Json, b: Json)
    requires a.Obj? && b.Obj?
    requires forall k :: k in a.fields && k in b.fields ==>
               (Norm(e, a.fields[k]) == Norm(e, b.fields[k]) <==> SetEqual(a.fields[k], b.fields[k]))
    ensures Norm(e, a) == Norm(e, b) <==> SetEqual(a, b)
  {
    var x, y := Norm(e, a).fields, Norm(e, b).fields;
    assert x.Keys == a.fields.Keys && y.Keys == b.fields.Keys;
    if Norm(e, a) == Norm(e, b) {
      forall k | k in a.fields ensures SetEqual(a.fields[k], b.fields[k]) {
        assert x[k] == y[k];
      }
    }
    if SetEqual(a, b) {
      assert x == y;
    }
  }

  /** Every array, at every depth, ascends strictly in the order of canonical texts. */
  ghost predicate IsNormal(e: Encoding, v: Json)
    decreases v
  {
    match v
    case Arr(items) => StrictlySorted(items, TextKey(e)) && forall i :: 0 <= i < |items| ==> IsNormal(e, items[i])
    case Obj(fields) => forall k :: k in fields ==> IsNormal(e, fields[k])
    case _ => true
  }

  lemma {:induction false} NormIsNormal(e: Encoding, v: Json)
    ensures IsNormal(e, Norm(e, v))
    decreases v
  {
    if v.Arr? {
      var n := Norm(e, v);
      forall i | 0 <= i < |n.items| ensures IsNormal(e, n.items[i]) {
        assert n.items[i] in Elements(n.items);
        var k :| 0 <= k < |v.items| && Norm(e, v.items[k]) == n.items[i];
        NormIsNormal(e, v.items[k]);
      }
    } else if v.Obj? {
      forall k | k in v.fields ensures IsNormal(e, Norm(e, v.fields[k])) {
        NormIsNormal(e, v.fields[k]);
      }
    }
  }

  lemma {:induction false} NormalIsFixed(e: Encoding, v: Json)
    requires IsNormal(e, v)
    ensures Norm(e, v) == v
    decreases v
  {
    if v.Arr? {
      forall i | 0 <= i < |v.items| ensures Norm(e, v.items[i]) == v.items[i] {
        NormalIsFixed(e, v.items[i]);
      }
      assert NormSet(e, v) == Elements(v.items);
      StrictlySortedUnique(SortedValues(e, NormSet(e, v)), v.items, TextKey(e));
    } else if v.Obj? {
      forall k | k in v.fields ensures Norm(e, v.fields[k]) == v.fields[k] {
        NormalIsFixed(e, v.fields[k]);
      }
    }
  }

  /**
   The normal form has all its arrays in strictly ascending order and is equal to the value as a nested set; a value is
   its own normal form exactly when its arrays ascend. So normalising twice changes nothing.
   */
  lemma NormIsTheNormalForm(e: Encoding, v: Json)
    ensures IsNormal(e, Norm(e, v)) && SetEqual(Norm(e, v), v)
    ensures Norm(e, v) == v <==> IsNormal(e, v)
    ensures Norm(e, Norm(e, v)) == Norm(e, v)
  {
    NormIsNormal(e, v);
    NormalIsFixed(e, Norm(e, v));
    NormIdentity(e, Norm(e, v), v);
    if IsNormal(e, v) { NormalIsFixed(e, v); }
  }

  // ----- Capability lists -----

  /** A network capability names its domains without regard to case. */
  function LowerDomains(lower: string -> string, c: Json): Json
  {
    if c.Obj? && "kind" in c.fields && c.fields["kind"] == Str("network")
       && "domains" in c.fields && c.fields["domains"].Arr?
    then
      var ds := c.fields["domains"].items;
      Obj(c.fields["domains" := Arr(seq(|ds|,
          i requires 0 <= i < |ds| => if ds[i].Str? then Str(lower(ds[i].s)) else ds[i]))])
    else c
  }

  function LowerAll(lower: string -> string, capabilities: seq<Json>): Json
  {
    Arr(seq(|capabilities|, i requires 0 <= i < |capabilities| => LowerDomains(lower, capabilities[i])))
  }

  /** The text whose digest is the approval identity of a capability list. */
  ghost function CapabilityText(e: Encoding, lower: string -> string, capabilities: seq<Json>): string
  {
    Canon(e, Norm(e, LowerAll(lower, capabilities)))
  }

  /** Declaration order and repetition do not change the approval identity, and nothing else is lost. */
  lemma CapabilityIdentity(e: Encoding, lower: string -> string, a: seq<Json>, b: seq<Json>)
    ensures CapabilityText(e, lower, a) == CapabilityText(e, lower, b)
       <==> SetEqual(LowerAll(lower, a), LowerAll(lower, b))
  {
    JsonReader.CanonInjective(e, Norm(e, LowerAll(lower, a)), Norm(e, LowerAll(lower, b)));
    NormIdentity(e, LowerAll(lower, a), LowerAll(lower, b));
  }

  /** Network capabilities that differ at most in how they spell a domain. */
  predicate SameButCase(lower: string -> string, x: Json, y: Json)
  {
    x.Obj? && y.Obj? && x.fields.Keys == y.fields.Keys && "kind" in x.fields && x.fields["kind"] == Str("network")
    && "domains" in x.fields && x.fields["domains"].Arr? && y.fields["domains"].Arr?
    && (forall k :: k in x.fields && k != "domains" ==> x.fields[k] == y.fields[k])
    && var (ds, es) := (x.fields["domains"].items, y.fields["domains"].items);
       |ds| == |es|
       && forall i :: 0 <= i < |ds| ==>
            ds[i] == es[i] || (ds[i].Str? && es[i].Str? && lower(ds[i].s) == lower(es[i].s))
  }

  lemma CaseLowered(lower: string -> string, x: Json, y: Json)
    requires SameButCase(lower, x, y)
    ensures LowerDomains(lower, x) == LowerDomains(lower, y)
  {
    var a, b := LowerDomains(lower, x), LowerDomains(lower, y);
    assert a.fields["domains"].items == b.fields["domains"].items;
    assert a.fields == b.fields;
  }

  /** How network domains are capitalised does not matter to the identity; no other capability is touched. */
  lemma OnlyDomainCaseIsLost(e: Encoding, lower: string -> string, a: seq<Json>, b: seq<Json>)
    requires |a| == |b| && forall i :: 0 <= i < |a| ==> a[i] == b[i] || SameButCase(lower, a[i], b[i])
    ensures CapabilityText(e, lower, a) == CapabilityText(e, lower, b)
    ensures forall i :: 0 <= i < |a| && !SameButCase(lower, a[i], a[i]) ==> LowerAll(lower, a).items[i] == a[i]
  {
    hide Norm, Canon;
    forall i | 0 <= i < |a| ensures LowerDomains(lower, a[i]) == LowerDomains(lower, b[i]) {
      if a[i] != b[i] { CaseLowered(lower, a[i], b[i]); }
    }
    assert LowerAll(lower, a) == LowerAll(lower, b);
  }

  // ----- The manifest schema's normaliser -----

  /** `Map.prototype.set`: a known key keeps its place, a new one goes to the end. */
  ghost function MapSet(m: seq<(string, Json)>, key: string, value: Json): seq<(string, Json)>
  {
    if m == [] then [(key, value)]
    else if m[0].0 == key then [(key, value)] + m[1..]
    else [m[0]] + MapSet(m[1..], key, value)
  }

  /** `new Map(values.map((entry) => [canonicalJson(entry), entry]))`. */
  ghost function TextMap(values: seq<Json>): seq<(string, Json)>
  {
    if values == [] then [] else
      var last := values[|values| - 1];
      MapSet(TextMap(values[..|values| - 1]), Canon(Utf16, last), last)
  }

  function EntryKey(e: Encoding): ((string, Json)) -> Key { (p: (string, Json)) => Encode(e, p.0) }

  function Values(m: seq<(string, Json)>): seq<Json>
  {
    seq(|m|, i requires 0 <= i < |m| => m[i].1)
  }

  ghost function TsNormalize(v: Json): Json
  {
    match v
    case Arr(items) =>
      var normalized := seq(|items|, i requires 0 <= i < |items| => TsNormalize(items[i]));
      Arr(Values(SortBy(TextMap(normalized), EntryKey(Utf16))))
    case Obj(fields) => Obj(map k | k in fields :: TsNormalize(fields[k]))
    case _ => v
  }

  /** Entries filed under their own canonical text. */
  ghost predicate FiledByText(e: Encoding, m: seq<(string, Json)>)
  {
    forall i :: 0 <= i < |m| ==> m[i].0 == Canon(e, m[i].1)
  }

  ghost predicate DistinctTexts(m: seq<(string, Json)>)
  {
    forall i, j :: 0 <= i < j < |m| ==> m[i].0 != m[j].0
  }

  ghost predicate Filed(m: seq<(string, Json)>) { FiledByText(Utf16, m) && DistinctTexts(m) }

  lemma ConsEntry(h: (string, Json), t: seq<(string, Json)>)
    requires Filed(t) && h.0 == Canon(Utf16, h.1) && h.1 !in Elements(Values(t))
    ensures Filed([h] + t) && Elements(Values([h] + t)) == {h.1} + Elements(Values(t))
  {
    assert Values([h] + t) == [h.1] + Values(t);
    ElementsCons(h.1, Values(t));
    forall j | 0 <= j < |t| ensures t[j].0 != h.0 {
      assert t[j].1 == Values(t)[j];
      JsonReader.CanonInjective(Utf16, t[j].1, h.1);
    }
  }

  lemma TailEntries(m: seq<(string, Json)>)
    requires m != [] && Filed(m)
    ensures Filed(m[1..]) && m[0].1 !in Elements(Values(m[1..]))
    ensures Elements(Values(m)) == {m[0].1} + Elements(Values(m[1..]))
  {
    assert Values(m) == [m[0].1] + Values(m[1..]);
    ElementsCons(m[0].1, Values(m[1..]));
    forall j | 0 <= j < |m[1..]| ensures Values(m[1..])[j] != m[0].1 {
      assert m[1..][j] == m[j + 1];
    }
  }

  lemma {:induction false} MapSetEntries(m: seq<(string, Json)>, value: Json)
    requires Filed(m)
    ensures Filed(MapSet(m, Canon(Utf16, value), value))
    ensures Elements(Values(MapSet(m, Canon(Utf16, value), value))) == Elements(Values(m)) + {value}
  {
    var key := Canon(Utf16, value);
    if m == [] {
      assert Values([(key, value)]) == [value];
    } else {
      TailEntries(m);
      if m[0].0 == key {
        JsonReader.CanonInjective(Utf16, m[0].1, value);
        assert [(key, value)] + m[1..] == m;
      } else {
        MapSetEntries(m[1..], value);
        ConsEntry(m[0], MapSet(m[1..], key, value));
      }
    }
  }

  lemma {:induction false} TextMapEntries(values: seq<Json>)
    ensures FiledByText(Utf16, TextMap(values)) && DistinctTexts(TextMap(values))
    ensures Elements(Values(TextMap(values))) == Elements(values)
  {
    if values != [] {
      var n := |values| - 1;
      TextMapEntries(values[..n]);
      MapSetEntries(TextMap(values[..n]), values[n]);
      assert values == values[..n] + [values[n]];
    }
  }

  lemma EntryOf(m: seq<(string, Json)>, r: seq<(string, Json)>, e: Encoding)
    requires multiset(m) == multiset(r) && FiledByText(e, m)
    ensures FiledByText(e, r) && Elements(Values(r)) == Elements(Values(m))
  {
    SameElements(m, r);
    forall i | 0 <= i < |r| ensures r[i].0 == Canon(e, r[i].1) && r[i].1 in Elements(Values(m)) {
      assert r[i] in Elements(r);
      var j :| 0 <= j < |m| && m[j] == r[i];
      assert Values(m)[j] == r[i].1;
    }
    forall x | x in Elements(Values(m)) ensures x in Elements(Values(r)) {
      var i :| 0 <= i < |Values(m)| && Values(m)[i] == x;
      assert m[i] in Elements(m);
      var j :| 0 <= j < |r| && r[j] == m[i];
      assert Values(r)[j] == x;
    }
  }

  /** Filing by text and then sorting the entries lists the set of values in text order. */
  lemma SortedEntries(e: Encoding, m: seq<(string, Json)>, s: set<Json>)
    requires FiledByText(e, m) && StrictlySorted(m, EntryKey(e)) && Elements(Values(m)) == s
    ensures Values(m) == SortedValues(e, s)
  {
    forall i, j | 0 <= i < j < |Values(m)| ensures Less(TextKey(e)(Values(m)[i]), TextKey(e)(Values(m)[j])) {
      assert Less(EntryKey(e)(m[i]), EntryKey(e)(m[j]));
    }
    StrictlySortedUnique(Values(m), SortedValues(e, s), TextKey(e));
  }

  /** The manifest schema's normaliser computes the normal form of the UTF-16 order. */
  lemma {:induction false} TsNormalizeIsNorm(v: Json)
    ensures TsNormalize(v) == Norm(Utf16, v)
    decreases v
  {
    if v.Arr? {
      var normalized := seq(|v.items|, i requires 0 <= i < |v.items| => TsNormalize(v.items[i]));
      forall i | 0 <= i < |v.items| ensures normalized[i] == Norm(Utf16, v.items[i]) {
        TsNormalizeIsNorm(v.items[i]);
      }
      NormalizedSet(Utf16, v, normalized);
      var m := TextMap(normalized);
      var r := SortBy(m, EntryKey(Utf16));
      TextMapEntries(normalized);
      EntryOf(m, r, Utf16);
      SortBySorted(m, EntryKey(Utf16));
      DistinctAfterSort(m, r);
      SortedEntries(Utf16, r, NormSet(Utf16, v));
    } else if v.Obj? {
      forall k | k in v.fields ensures TsNormalize(v.fields[k]) == Norm(Utf16, v.fields[k]) {
        TsNormalizeIsNorm(v.fields[k]);
      }
    }
  }

  lemma NormalizedSet(e: Encoding, v: Json, normalized: seq<Json>)
    requires v.Arr? && |normalized| == |v.items|
    requires forall i :: 0 <= i < |v.items| ==> normalized[i] == Norm(e, v.items[i])
    ensures Elements(normalized) == NormSet(e, v)
  {
    forall x | x in NormSet(e, v) ensures x in Elements(normalized) {
      var i :| 0 <= i < |v.items| && Norm(e, v.items[i]) == x;
      assert normalized[i] == x;
    }
  }

  lemma DistinctAfterSort(m: seq<(string, Json)>, r: seq<(string, Json)>)
    requires multiset(m) == multiset(r) && DistinctTexts(m) && Sorted(r, EntryKey(Utf16))
    ensures StrictlySorted(r, EntryKey(Utf16))
  {
    forall i, j | 0 <= i < j < |m| ensures EntryKey(Utf16)(m[i]) != EntryKey(Utf16)(m[j]) {
      if EntryKey(Utf16)(m[i]) == EntryKey(Utf16)(m[j]) { EncodeInjective(Utf16, m[i].0, m[j].0); }
    }
    DistinctPermutation(m, r, EntryKey(Utf16));
    SortedDistinctIsStrict(r, EntryKey(Utf16));
  }
}
