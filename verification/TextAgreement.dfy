/**
 When the agent and the control plane derive one text from one value. The agent orders by UTF-8
 bytes, the control plane by UTF-16 units; the exact condition is on the characters in use.
 */
module TextAgreement {
  import opened Ordering
  import opened Unicode
  import opened CanonicalJson
  import JsonReader
  import opened CapabilitySet

  /** Every string and every key of the value is written in the given characters. */
  ghost predicate Within(v: Json, cs: set<char>)
  {
    match v
    case Str(s) => Over(s, cs)
    case Arr(items) => forall x :: x in items ==> Within(x, cs)
    case Obj(fields) => forall k :: k in fields ==> Over(k, cs) && Within(fields[k], cs)
    case _ => true
  }

  predicate IsAscii(c: char) { c as int < 128 }

  ghost function Ascii(): set<char> { set c: char | IsAscii(c) }

  lemma AsciiHasAll(s: string)
    requires forall i :: 0 <= i < |s| ==> IsAscii(s[i])
    ensures Over(s, Ascii())
  {
    assert forall c :: c in s ==> IsAscii(c);
  }

  lemma MixedWithAscii(cs: set<char>)
    ensures Mixed(cs + Ascii()) <==> Mixed(cs)
  {
    if Mixed(cs + Ascii()) {
      var c :| c in cs + Ascii() && Supplementary(c);
      var d :| d in cs + Ascii() && AboveSurrogates(d);
      assert c in cs && d in cs;
    }
  }

  lemma EscapeWithin(c: char)
    ensures Over(Escape(c), {c} + Ascii())
  {
    if Escape(c) != [c] { AsciiHasAll(Escape(c)); }
  }

  lemma {:induction false} EscapeAllWithin(s: string, cs: set<char>)
    requires Over(s, cs)
    ensures Over(EscapeAll(s), cs + Ascii())
  {
    if s != [] {
      assert s[0] in s;
      EscapeWithin(s[0]);
      EscapeAllWithin(s[1..], cs);
    }
  }

  lemma {:induction false} DecimalAscii(n: nat)
    ensures Over(Decimal(n), Ascii())
  {
    DecimalDigits(n);
    AsciiHasAll(Decimal(n));
  }

  /** The text of a value adds only ASCII to the characters of the value. */
  lemma {:induction false} CanonWithin(e: Encoding, v: Json, cs: set<char>)
    requires Within(v, cs)
    ensures Over(Canon(e, v), cs + Ascii())
    decreases v, 1, 0
  {
    match v {
      case Num(n) =>
        DecimalAscii(if n < 0 then -n else n);
        AsciiHasAll("-");
      case Str(s) =>
        EscapeAllWithin(s, cs);
        AsciiHasAll("\"");
      case Arr(_) =>
        ItemsWithin(e, v, 0, cs);
        AsciiHasAll("[");
        AsciiHasAll("]");
      case Obj(fields) =>
        MembersWithin(e, v, SortedKeys(e, fields.Keys), 0, cs);
        AsciiHasAll("{");
        AsciiHasAll("}");
      case _ => AsciiHasAll(Canon(e, v));
    }
  }

  lemma {:induction false} ItemsWithin(e: Encoding, v: Json, i: nat, cs: set<char>)
    requires v.Arr? && Within(v, cs) && i <= |v.items|
    ensures Over(CanonItems(e, v, i), cs + Ascii())
    decreases v, 0, |v.items| - i
  {
    if i < |v.items| {
      CanonWithin(e, v.items[i], cs);
      ItemsWithin(e, v, i + 1, cs);
      AsciiHasAll(Separator(i));
    }
  }

  lemma {:induction false} MembersWithin(e: Encoding, v: Json, ks: seq<string>, i: nat, cs: set<char>)
    requires v.Obj? && Within(v, cs) && Elements(ks) <= v.fields.Keys && i <= |ks|
    ensures Over(CanonMembers(e, v, ks, i), cs + Ascii())
    decreases v, 0, |ks| - i
  {
    if i < |ks| {
      assert ks[i] in Elements(ks);
      EscapeAllWithin(ks[i], cs);
      CanonWithin(e, v.fields[ks[i]], cs);
      MembersWithin(e, v, ks, i + 1, cs);
      AsciiHasAll(Separator(i));
      AsciiHasAll("\"");
      AsciiHasAll(":");
      assert Over(Quote(ks[i]), cs + Ascii());
    }
  }

  // ----- Agreement -----

  lemma KeysAgree(keys: set<string>, cs: set<char>)
    requires !Mixed(cs) && forall k :: k in keys ==> Over(k, cs)
    ensures SortedKeys(Utf8, keys) == SortedKeys(Utf16, keys)
  {
    var ks := SortedKeys(Utf8, keys);
    forall i, j | 0 <= i < j < |ks| ensures Less(UnitKey(Utf16)(ks[i]), UnitKey(Utf16)(ks[j])) {
      assert ks[i] in Elements(ks) && ks[j] in Elements(ks);
      assert Less(UnitKey(Utf8)(ks[i]), UnitKey(Utf8)(ks[j]));
      EncodeOrder(Utf8, ks[i], ks[j], cs);
      EncodeOrder(Utf16, ks[i], ks[j], cs);
    }
    StrictlySortedUnique(ks, SortedKeys(Utf16, keys), UnitKey(Utf16));
  }

  /** The keys of every object in the value are written in the given characters. */
  ghost predicate KeysWithin(v: Json, cs: set<char>)
  {
    match v
    case Arr(items) => forall x :: x in items ==> KeysWithin(x, cs)
    case Obj(fields) => forall k :: k in fields ==> Over(k, cs) && KeysWithin(fields[k], cs)
    case _ => true
  }

  lemma {:induction false} WithinKeys(v: Json, cs: set<char>)
    requires Within(v, cs)
    ensures KeysWithin(v, cs)
  {
    if v.Arr? {
      forall x | x in v.items ensures KeysWithin(x, cs) { WithinKeys(x, cs); }
    } else if v.Obj? {
      forall k | k in v.fields ensures Over(k, cs) && KeysWithin(v.fields[k], cs) { WithinKeys(v.fields[k], cs); }
    }
  }

  /** Without mixed keys the two serialisers write the same text. */
  lemma {:induction false} CanonAgree(v: Json, cs: set<char>)
    requires KeysWithin(v, cs) && !Mixed(cs)
    ensures Canon(Utf8, v) == Canon(Utf16, v)
    decreases v, 1, 0
  {
    if v.Arr? {
      ItemsAgree(v, 0, cs);
    } else if v.Obj? {
      KeysAgree(v.fields.Keys, cs);
      MembersAgree(v, SortedKeys(Utf8, v.fields.Keys), 0, cs);
    }
  }

  lemma {:induction false} ItemsAgree(v: Json, i: nat, cs: set<char>)
    requires v.Arr? && KeysWithin(v, cs) && !Mixed(cs) && i <= |v.items|
    ensures CanonItems(Utf8, v, i) == CanonItems(Utf16, v, i)
    decreases v, 0, |v.items| - i
  {
    if i < |v.items| {
      assert v.items[i] in v.items;
      CanonAgree(v.items[i], cs);
      ItemsAgree(v, i + 1, cs);
    }
  }

  lemma {:induction false} MembersAgree(v: Json, ks: seq<string>, i: nat, cs: set<char>)
    requires v.Obj? && KeysWithin(v, cs) && !Mixed(cs) && Elements(ks) <= v.fields.Keys && i <= |ks|
    ensures CanonMembers(Utf8, v, ks, i) == CanonMembers(Utf16, v, ks, i)
    decreases v, 0, |ks| - i
  {
    if i < |ks| {
      assert ks[i] in Elements(ks);
      CanonAgree(v.fields[ks[i]], cs);
      MembersAgree(v, ks, i + 1, cs);
    }
  }

  lemma ValuesAgree(s: set<Json>, cs: set<char>)
    requires !Mixed(cs) && forall x :: x in s ==> Within(x, cs)
    ensures SortedValues(Utf8, s) == SortedValues(Utf16, s)
  {
    var vs := SortedValues(Utf8, s);
    var all := cs + Ascii();
    MixedWithAscii(cs);
    forall i, j | 0 <= i < j < |vs| ensures Less(TextKey(Utf16)(vs[i]), TextKey(Utf16)(vs[j])) {
      assert vs[i] in Elements(vs) && vs[j] in Elements(vs);
      assert Less(TextKey(Utf8)(vs[i]), TextKey(Utf8)(vs[j]));
      WithinKeys(vs[i], cs);
      WithinKeys(vs[j], cs);
      CanonAgree(vs[i], cs);
      CanonAgree(vs[j], cs);
      CanonWithin(Utf8, vs[i], cs);
      CanonWithin(Utf8, vs[j], cs);
      EncodeOrder(Utf8, Canon(Utf8, vs[i]), Canon(Utf8, vs[j]), all);
      EncodeOrder(Utf16, Canon(Utf8, vs[i]), Canon(Utf8, vs[j]), all);
    }
    StrictlySortedUnique(vs, SortedValues(Utf16, s), TextKey(Utf16));
  }

  lemma {:induction false} NormAgree(v: Json, cs: set<char>)
    requires Within(v, cs) && !Mixed(cs)
    ensures Norm(Utf8, v) == Norm(Utf16, v) && Within(Norm(Utf8, v), cs)
    decreases v
  {
    if v.Arr? {
      forall i | 0 <= i < |v.items|
        ensures Norm(Utf8, v.items[i]) == Norm(Utf16, v.items[i]) && Within(Norm(Utf8, v.items[i]), cs)
      {
        NormAgree(v.items[i], cs);
      }
      assert NormSet(Utf8, v) == NormSet(Utf16, v);
      ValuesAgree(NormSet(Utf8, v), cs);
      var n := Norm(Utf8, v);
      forall x | x in n.items ensures Within(x, cs) {
        assert x in Elements(n.items);
      }
    } else if v.Obj? {
      forall k | k in v.fields
        ensures Norm(Utf8, v.fields[k]) == Norm(Utf16, v.fields[k]) && Within(Norm(Utf8, v.fields[k]), cs)
      {
        NormAgree(v.fields[k], cs);
      }
    }
  }

  ghost predicate SameText(v: Json) { Canon(Utf8, Norm(Utf8, v)) == Canon(Utf16, Norm(Utf16, v)) }

  lemma AgreeWithin(v: Json, cs: set<char>)
    requires Within(v, cs) && !Mixed(cs)
    ensures SameText(v)
  {
    NormAgree(v, cs);
    WithinKeys(Norm(Utf8, v), cs);
    CanonAgree(Norm(Utf8, v), cs);
  }

  // ----- Disagreement -----

  lemma SingletonText(e: Encoding, c: char)
    requires 0x80 <= c as int
    ensures Encode(e, Canon(e, Str([c]))) == [34] + (Units(e, c) + [34])
  {
    assert EscapeAll([c]) == [c] + EscapeAll([]);
    assert Canon(e, Str([c])) == ['"', c, '"'];
    assert ['"', c, '"'][1..] == [c, '"'] && [c, '"'][1..] == ['"'];
    assert Encode(e, ['"']) == [34] + Encode(e, []);
  }

  lemma SingletonOrder(c: char, d: char)
    requires Supplementary(c) && AboveSurrogates(d)
    ensures Less(TextKey(Utf8)(Str([d])), TextKey(Utf8)(Str([c])))
    ensures Less(TextKey(Utf16)(Str([c])), TextKey(Utf16)(Str([d])))
  {
    UnitsDiverge(Utf8, d, c);
    DivergesLess(Units(Utf8, d), Units(Utf8, c), [34], [34]);
    UnitsDiverge(Utf16, d, c);
    DivergesLess(Units(Utf16, c), Units(Utf16, d), [34], [34]);
    SingletonText(Utf8, c);
    SingletonText(Utf8, d);
    SingletonText(Utf16, c);
    SingletonText(Utf16, d);
    LessCommonPrefix([34], Units(Utf8, d) + [34], Units(Utf8, c) + [34]);
    LessCommonPrefix([34], Units(Utf16, c) + [34], Units(Utf16, d) + [34]);
  }

  /** No list of both strings is in order for both sides. */
  lemma NoCommonOrder(vs: seq<Json>, c: char, d: char)
    requires Supplementary(c) && AboveSurrogates(d) && Str([c]) in vs && Str([d]) in vs
    ensures !(StrictlySorted(vs, TextKey(Utf8)) && StrictlySorted(vs, TextKey(Utf16)))
  {
    var i :| 0 <= i < |vs| && vs[i] == Str([c]);
    var j :| 0 <= j < |vs| && vs[j] == Str([d]);
    SingletonOrder(c, d);
    LessAsymmetric(TextKey(Utf8)(vs[j]), TextKey(Utf8)(vs[i]));
    LessAsymmetric(TextKey(Utf16)(vs[i]), TextKey(Utf16)(vs[j]));
  }

  lemma PairNorm(e: Encoding, c: char, d: char)
    ensures var n := Norm(e, Arr([Str([c]), Str([d])]));
            n.Arr? && StrictlySorted(n.items, TextKey(e)) && Elements(n.items) == {Str([c]), Str([d])}
  {
    var v := Arr([Str([c]), Str([d])]);
    assert Norm(e, v.items[0]) == Str([c]) && Norm(e, v.items[1]) == Str([d]);
    assert NormSet(e, v) == {Norm(e, v.items[0]), Norm(e, v.items[1])};
  }

  /** Two one-character strings, one from each range, are listed in opposite orders. */
  lemma TextsDiffer(c: char, d: char)
    requires Supplementary(c) && AboveSurrogates(d)
    ensures !SameText(Arr([Str([c]), Str([d])]))
  {
    var v := Arr([Str([c]), Str([d])]);
    var x, y := Norm(Utf8, v), Norm(Utf16, v);
    PairNorm(Utf8, c, d);
    PairNorm(Utf16, c, d);
    assert Str([c]) in Elements(x.items) && Str([d]) in Elements(x.items);
    NoCommonOrder(x.items, c, d);
    forall z | z in y.items ensures z.Str? {
      assert z in Elements(y.items);
    }
    CanonAgree(y, {});
    JsonReader.CanonInjective(Utf8, x, y);
  }

  /**
   The agent and the control plane agree on every value written in some characters exactly when
   those do not mix supplementary characters with U+E000..U+FFFF.
   */
  lemma AgreementCondition(cs: set<char>)
    ensures (forall v :: Within(v, cs) ==> SameText(v)) <==> !Mixed(cs)
  {
    if Mixed(cs) {
      var c :| c in cs && Supplementary(c);
      var d :| d in cs && AboveSurrogates(d);
      var v := Arr([Str([c]), Str([d])]);
      assert Within(v, cs);
      TextsDiffer(c, d);
    } else {
      forall v | Within(v, cs) ensures SameText(v) {
        AgreeWithin(v, cs);
      }
    }
  }
}
