/** The agent's serialiser, which appends to a buffer, and its in-place normaliser. */
module AgentJson {
  import opened Wrappers
  import opened Ordering
  import opened Unicode
  import opened CanonicalJson
  import JsonReader
  import opened CapabilitySet

  /** The keys of an object in the order the agent writes them. */
  method SortedObjectKeys(fields: map<string, Json>) returns (ks: seq<string>)
    ensures ks == SortedKeys(Utf8, fields.Keys)
  {
    UnitKeyInjective(Utf8, fields.Keys);
    ks := SortElements(fields.Keys, UnitKey(Utf8));
  }

  class TextBuffer {
    var text: string

    constructor ()
      ensures text == ""
    {
      text := "";
    }

    method Push(s: string)
      modifies this
      ensures text == old(text) + s
    {
      text := text + s;
    }

    method WriteCanonicalJson(value: Json)
      modifies this
      ensures text == old(text) + Canon(Utf8, value)
      decreases value, 1
    {
      match value
      case Null => Push("null");
      case Bool(b) => Push(if b then "true" else "false");
      case Num(n) => Push(Integer(n));
      case Str(s) => Push(Quote(s));
      case Arr(_) => WriteArray(value);
      case Obj(_) => WriteObject(value);
    }

    method WriteArray(value: Json)
      requires value.Arr?
      modifies this
      ensures text == old(text) + Canon(Utf8, value)
      decreases value, 0
    {
      ghost var before := text;
      Push("[");
      var index := 0;
      while index < |value.items|
        invariant index <= |value.items|
        invariant text + CanonItems(Utf8, value, index) == before + "[" + CanonItems(Utf8, value, 0)
      {
        ghost var was := text;
        if index > 0 { Push(","); }
        WriteCanonicalJson(value.items[index]);
        PushItem(was, Separator(index), Canon(Utf8, value.items[index]), CanonItems(Utf8, value, index + 1));
        index := index + 1;
      }
      assert text + "" == text;
      Push("]");
      PushItem(before, "[", CanonItems(Utf8, value, 0), "]");
    }

    method WriteObject(value: Json)
      requires value.Obj?
      modifies this
      ensures text == old(text) + Canon(Utf8, value)
      decreases value, 0
    {
      ghost var before := text;
      Push("{");
      var keys := SortedObjectKeys(value.fields);
      var index := 0;
      while index < |keys|
        invariant index <= |keys|
        invariant text + CanonMembers(Utf8, value, keys, index) == before + "{" + CanonMembers(Utf8, value, keys, 0)
      {
        ghost var was := text;
        assert keys[index] in Elements(keys);
        if index > 0 { Push(","); }
        Push(Quote(keys[index]));
        Push(":");
        WriteCanonicalJson(value.fields[keys[index]]);
        PushMember(was, Separator(index), Quote(keys[index]), Canon(Utf8, value.fields[keys[index]]),
                   CanonMembers(Utf8, value, keys, index + 1));
        index := index + 1;
      }
      assert text + "" == text;
      Push("}");
      PushItem(before, "{", CanonMembers(Utf8, value, keys, 0), "}");
    }
  }

  lemma PushItem(was: string, sep: string, item: string, rest: string)
    ensures was + sep + item + rest == was + (sep + item + rest)
    ensures sep == "" ==> was + sep == was
  {}

  lemma PushMember(was: string, sep: string, key: string, item: string, rest: string)
    ensures was + sep + key + ":" + item + rest == was + (sep + key + ":" + item + rest)
    ensures sep == "" ==> was + sep == was
  {}

  method CanonicalText(value: Json) returns (text: string)
    ensures text == Canon(Utf8, value) && JsonReader.Parse(Utf8, text) == Some(value)
  {
    JsonReader.CanonParses(Utf8, value);
    var output := new TextBuffer();
    output.WriteCanonicalJson(value);
    text := output.text;
  }

  // ----- Normalising in place -----

  method KeyByText(entries: seq<Json>) returns (keyed: seq<(string, Json)>)
    ensures FiledByText(Utf8, keyed) && Values(keyed) == entries
  {
    hide Canon, JsonReader.Parse;
    keyed := [];
    for i := 0 to |entries|
      invariant |keyed| == i && FiledByText(Utf8, keyed)
      invariant forall j :: 0 <= j < i ==> keyed[j].1 == entries[j]
    {
      var text := CanonicalText(entries[i]);
      keyed := keyed + [(text, entries[i])];
    }
  }

  /** `dedup_by`: an entry is dropped when its text is that of the last entry kept. */
  method DropRepeats(keyed: seq<(string, Json)>) returns (kept: seq<(string, Json)>)
    requires FiledByText(Utf8, keyed) && Sorted(keyed, EntryKey(Utf8))
    ensures FiledByText(Utf8, kept) && StrictlySorted(kept, EntryKey(Utf8))
    ensures Elements(Values(kept)) == Elements(Values(keyed))
  {
    kept := [];
    for i := 0 to |keyed|
      invariant FiledByText(Utf8, kept) && StrictlySorted(kept, EntryKey(Utf8))
      invariant Elements(Values(kept)) == Elements(Values(keyed[..i]))
      invariant i > 0 ==> kept != [] && kept[|kept| - 1] == keyed[i - 1]
      invariant i == 0 ==> kept == []
    {
      KeepOrDrop(kept, keyed, i);
      if kept == [] || kept[|kept| - 1].0 != keyed[i].0 {
        kept := kept + [keyed[i]];
      }
    }
    assert keyed[..|keyed|] == keyed;
  }

  lemma KeepOrDrop(kept: seq<(string, Json)>, keyed: seq<(string, Json)>, i: nat)
    requires i < |keyed| && FiledByText(Utf8, keyed) && Sorted(keyed, EntryKey(Utf8))
    requires FiledByText(Utf8, kept) && StrictlySorted(kept, EntryKey(Utf8))
    requires Elements(Values(kept)) == Elements(Values(keyed[..i]))
    requires if i > 0 then kept != [] && kept[|kept| - 1] == keyed[i - 1] else kept == []
    ensures kept != [] && kept[|kept| - 1].0 == keyed[i].0 ==>
              kept[|kept| - 1] == keyed[i] && Elements(Values(kept)) == Elements(Values(keyed[..i + 1]))
    ensures kept == [] || kept[|kept| - 1].0 != keyed[i].0 ==>
              StrictlySorted(kept + [keyed[i]], EntryKey(Utf8))
              && Elements(Values(kept + [keyed[i]])) == Elements(Values(keyed[..i + 1]))
  {
    hide Canon;
    assert Values(keyed[..i + 1]) == Values(keyed[..i]) + [keyed[i].1];
    ElementsSnoc(Values(keyed[..i]), keyed[i].1);
    if kept == [] || kept[|kept| - 1].0 != keyed[i].0 {
      Extend(kept, keyed, i);
      ElementsSnoc(Values(kept), keyed[i].1);
      assert Values(kept + [keyed[i]]) == Values(kept) + [keyed[i].1];
    } else {
      JsonReader.CanonInjective(Utf8, kept[|kept| - 1].1, keyed[i].1);
      assert Values(kept)[|kept| - 1] == keyed[i].1;
    }
  }

  lemma Extend(kept: seq<(string, Json)>, keyed: seq<(string, Json)>, i: nat)
    requires i < |keyed| && Sorted(keyed, EntryKey(Utf8)) && StrictlySorted(kept, EntryKey(Utf8))
    requires i > 0 ==> kept != [] && kept[|kept| - 1] == keyed[i - 1]
    requires i == 0 ==> kept == []
    requires kept == [] || kept[|kept| - 1].0 != keyed[i].0
    ensures StrictlySorted(kept + [keyed[i]], EntryKey(Utf8))
  {
    if kept != [] {
      var key := EntryKey(Utf8);
      var last := kept[|kept| - 1];
      if key(last) == key(keyed[i]) { EncodeInjective(Utf8, last.0, keyed[i].0); }
      assert Less(key(last), key(keyed[i]));
      forall j | 0 <= j < |kept| ensures Less(key(kept[j]), key(keyed[i])) {
        if j < |kept| - 1 { LessTransitive(key(kept[j]), key(last), key(keyed[i])); }
      }
    }
  }

  /** Normalises children first, then drains, sorts and refills each array. */
  method NormalizeSetArrays(value: Json) returns (r: Json)
    ensures r == Norm(Utf8, value)
    decreases value
  {
    match value
    case Arr(items) =>
      var entries := items;
      for i := 0 to |items|
        invariant |entries| == |items|
        invariant forall j :: 0 <= j < i ==> entries[j] == Norm(Utf8, items[j])
        invariant forall j :: i <= j < |items| ==> entries[j] == items[j]
      {
        var entry := NormalizeSetArrays(items[i]);
        entries := entries[i := entry];
      }
      var keyed := KeyByText(entries);
      var sorted := SortBy(keyed, EntryKey(Utf8));
      SortBySorted(keyed, EntryKey(Utf8));
      EntryOf(keyed, sorted, Utf8);
      var kept := DropRepeats(sorted);
      NormalizedSet(Utf8, value, entries);
      SortedEntries(Utf8, kept, NormSet(Utf8, value));
      r := Arr(Values(kept));
    case Obj(fields) =>
      var entries, todo := fields, fields.Keys;
      while todo != {}
        invariant todo <= fields.Keys == entries.Keys
        invariant forall k :: k in fields ==> entries[k] == if k in todo then fields[k] else Norm(Utf8, fields[k])
      {
        var k :| k in todo;
        var entry := NormalizeSetArrays(fields[k]);
        entries, todo := entries[k := entry], todo - {k};
      }
      r := Obj(entries);
      assert entries == map k | k in fields :: Norm(Utf8, fields[k]);
    case _ => r := value;
  }

  method LowerNetworkDomains(lower: string -> string, entry: Json) returns (r: Json)
    ensures r == LowerDomains(lower, entry)
  {
    r := entry;
    if entry.Obj? && "kind" in entry.fields && entry.fields["kind"] == Str("network") {
      if "domains" in entry.fields && entry.fields["domains"].Arr? {
        var domains := entry.fields["domains"].items;
        var lowered := domains;
        for i := 0 to |domains|
          invariant |lowered| == |domains|
          invariant forall j :: 0 <= j < i ==>
              lowered[j] == if domains[j].Str? then Str(lower(domains[j].s)) else domains[j]
          invariant forall j :: i <= j < |domains| ==> lowered[j] == domains[j]
        {
          if lowered[i].Str? { lowered := lowered[i := Str(lower(lowered[i].s))]; }
        }
        r := Obj(entry.fields["domains" := Arr(lowered)]);
        assert lowered == LowerDomains(lower, entry).fields["domains"].items;
      }
    }
  }

  /** The text the agent hashes for a capability list. */
  method DesktopCapabilityText(lower: string -> string, capabilities: seq<Json>) returns (text: string)
    ensures text == CapabilityText(Utf8, lower, capabilities)
  {
    var entries := capabilities;
    for i := 0 to |capabilities|
      invariant |entries| == |capabilities|
      invariant forall j :: 0 <= j < i ==> entries[j] == LowerDomains(lower, capabilities[j])
      invariant forall j :: i <= j < |capabilities| ==> entries[j] == capabilities[j]
    {
      var entry := LowerNetworkDomains(lower, entries[i]);
      entries := entries[i := entry];
    }
    assert Arr(entries) == LowerAll(lower, capabilities);
    var value := NormalizeSetArrays(Arr(entries));
    text := CanonicalText(value);
  }
}
