/** The deterministic archive writer: path rules, ordering, and the buffers it fills. */
module ZipWriter {
  import opened Wrappers
  import opened Ordering
  import opened Splitting
  import opened Unicode
  import opened Crc32
  import opened ZipFormat
  import opened ZipRoundTrip

  datatype ZipError =
    | InvalidPath | PathEscape | WindowsUnsafe | WindowsReserved
    | TooManyFiles | DuplicatePath | FieldOutOfRange | TooLarge

  /** `toUpperCase` and `toLocaleLowerCase('en-US')`, which this model does not define. */
  datatype Casing = Casing(upper: string -> string, fold: string -> string)

  // ----- Path rules -----

  predicate IsLetter(c: char) { 'A' <= c <= 'Z' || 'a' <= c <= 'z' }

  function NonEmpty(parts: seq<string>): seq<string>
  {
    if parts == [] then []
    else if parts[0] == "" then NonEmpty(parts[1..])
    else [parts[0]] + NonEmpty(parts[1..])
  }

  predicate Reserved(stem: string)
  {
    stem in {"CON", "PRN", "AUX", "NUL"}
    || (|stem| == 4 && (stem[..3] == "COM" || stem[..3] == "LPT") && '1' <= stem[3] <= '9')
  }

  function ComponentError(casing: Casing, component: string): Option<ZipError>
    requires component != ""
  {
    var last := component[|component| - 1];
    if ':' in component || last == '.' || last == ' ' then Some(WindowsUnsafe)
    else if Reserved(casing.upper(Split(component, '.')[0])) then Some(WindowsReserved)
    else None
  }

  function ComponentsError(casing: Casing, components: seq<string>): Option<ZipError>
  {
    if components == [] then None
    else if components[0] != "" && ComponentError(casing, components[0]).Some? then
      ComponentError(casing, components[0])
    else ComponentsError(casing, components[1..])
  }

  function PathError(casing: Casing, name: string): Option<ZipError>
  {
    if name == "" || '\0' in name || '\\' in name || name[0] == '/'
       || (|name| >= 2 && IsLetter(name[0]) && name[1] == ':')
    then Some(InvalidPath)
    else
      var components := NonEmpty(Split(name, '/'));
      if components == [] || "." in components || ".." in components then Some(PathEscape)
      else ComponentsError(casing, components)
  }

  // ----- What the writer accepts, and what it refuses -----

  function NameKey(): Entry -> Key { (e: Entry) => Encode(Utf16, e.name) }

  function FoldKey(casing: Casing): Entry -> Key { (e: Entry) => Encode(Utf16, casing.fold(e.name)) }

  function SortedEntries(input: seq<Entry>): seq<Entry> { SortBy(input, NameKey()) }

  ghost predicate Packable(casing: Casing, input: seq<Entry>)
  {
    (forall e :: e in input ==> PathError(casing, e.name).None?)
    && DistinctKeys(input, FoldKey(casing)) && Fits(SortedEntries(input))
  }

  function FirstPathError(casing: Casing, input: seq<Entry>): (r: Option<ZipError>)
    ensures r.None? <==> forall e :: e in input ==> PathError(casing, e.name).None?
  {
    if input == [] then None
    else if PathError(casing, input[0].name).Some? then PathError(casing, input[0].name)
    else FirstPathError(casing, input[1..])
  }

  /** The first entry whose sizes or whose end position cannot be stored. */
  function LayoutError(es: seq<Entry>, i: nat, offset: nat): Option<ZipError>
    requires i <= |es|
    decreases |es| - i
  {
    if i == |es| then None
    else if |es[i].bytes| > MAX32 || |NameBytes(es[i].name)| > MAX16 then Some(FieldOutOfRange)
    else
      var next := offset + 30 + |NameBytes(es[i].name)| + |es[i].bytes|;
      if next > MAX32 then Some(TooLarge) else LayoutError(es, i + 1, next)
  }

  ghost function Failure(casing: Casing, input: seq<Entry>): Option<ZipError>
  {
    var es := SortedEntries(input);
    if FirstPathError(casing, input).Some? then FirstPathError(casing, input)
    else if |es| > MAX16 then Some(TooManyFiles)
    else if !DistinctKeys(es, FoldKey(casing)) then Some(DuplicatePath)
    else if LayoutError(es, 0, 0).Some? then LayoutError(es, 0, 0)
    else if |Centrals(es)| > MAX32 then Some(FieldOutOfRange)
    else None
  }

  lemma LocalPartLength(e: Entry)
    ensures |LocalPart(e)| == 30 + |NameBytes(e.name)| + |e.bytes|
  {}

  lemma NextOffset(es: seq<Entry>, i: nat)
    requires i < |es|
    ensures Offset(es, i + 1) == Offset(es, i) + |LocalPart(es[i])|
  {
    hide LocalPart;
    ConcatNext(LocalParts(es), i);
  }

  lemma LastOffset(es: seq<Entry>)
    ensures Offset(es, |es|) == |Locals(es)| && Offset(es, 0) == 0
  {
    hide LocalPart;
    assert LocalParts(es)[..|es|] == LocalParts(es) && LocalParts(es)[..0] == [];
  }

  lemma OffsetBound(es: seq<Entry>, i: nat)
    requires i <= |es|
    ensures Offset(es, i) <= |Locals(es)|
  {
    hide LocalPart;
    PrefixLength(LocalParts(es), i);
  }

  ghost predicate FieldsFit(es: seq<Entry>, i: nat)
  {
    forall j :: i <= j < |es| ==> |NameBytes(es[j].name)| <= MAX16 && |es[j].bytes| <= MAX32
  }

  lemma {:induction false} LayoutErrorFits(es: seq<Entry>, i: nat)
    requires i <= |es| && Offset(es, i) <= MAX32
    ensures LayoutError(es, i, Offset(es, i)).None? <==> |Locals(es)| <= MAX32 && FieldsFit(es, i)
    decreases |es| - i
  {
    hide LocalPart, Offset, Locals;
    if i == |es| {
      LastOffset(es);
    } else {
      NextOffset(es, i);
      LocalPartLength(es[i]);
      OffsetBound(es, i + 1);
      if Offset(es, i + 1) <= MAX32 { LayoutErrorFits(es, i + 1); }
    }
  }

  lemma LayoutFits(es: seq<Entry>)
    ensures LayoutError(es, 0, 0).None? <==> |Locals(es)| <= MAX32 && FieldsFit(es, 0)
  {
    LastOffset(es);
    LayoutErrorFits(es, 0);
  }

  lemma SortedDistinct(casing: Casing, input: seq<Entry>)
    ensures DistinctKeys(SortedEntries(input), FoldKey(casing)) <==> DistinctKeys(input, FoldKey(casing))
  {
    var es := SortedEntries(input);
    if DistinctKeys(input, FoldKey(casing)) { DistinctPermutation(input, es, FoldKey(casing)); }
    if DistinctKeys(es, FoldKey(casing)) { DistinctPermutation(es, input, FoldKey(casing)); }
  }

  /** The writer refuses exactly the inputs an archive cannot hold. */
  lemma FailureIffNotPackable(casing: Casing, input: seq<Entry>)
    ensures Failure(casing, input).None? <==> Packable(casing, input)
  {
    hide Locals, Centrals, LayoutError, FirstPathError, DistinctKeys, PathError, NameBytes, SortedEntries;
    SortedDistinct(casing, input);
    LayoutFits(SortedEntries(input));
  }

  predicate IsPathError(e: ZipError)
  {
    e == InvalidPath || e == PathEscape || e == WindowsUnsafe || e == WindowsReserved
  }

  lemma {:induction false} ComponentsErrorKind(casing: Casing, components: seq<string>)
    ensures ComponentsError(casing, components).Some? ==> IsPathError(ComponentsError(casing, components).value)
  {
    if components != [] { ComponentsErrorKind(casing, components[1..]); }
  }

  lemma PathErrorKind(casing: Casing, name: string)
    ensures PathError(casing, name).Some? ==> IsPathError(PathError(casing, name).value)
  {
    hide ComponentsError;
    ComponentsErrorKind(casing, NonEmpty(Split(name, '/')));
  }

  lemma {:induction false} FirstPathErrorOf(casing: Casing, input: seq<Entry>)
    requires FirstPathError(casing, input).Some?
    ensures exists e :: e in input && PathError(casing, e.name) == FirstPathError(casing, input)
    ensures IsPathError(FirstPathError(casing, input).value)
  {
    hide PathError, IsPathError;
    PathErrorKind(casing, input[0].name);
    if PathError(casing, input[0].name).None? { FirstPathErrorOf(casing, input[1..]); }
  }

  lemma {:induction false} LayoutErrorKind(es: seq<Entry>, i: nat)
    requires i <= |es| && LayoutError(es, i, Offset(es, i)).Some?
    ensures LayoutError(es, i, Offset(es, i)) == Some(FieldOutOfRange)
         || (LayoutError(es, i, Offset(es, i)) == Some(TooLarge) && |Locals(es)| > MAX32)
    decreases |es| - i
  {
    hide Offset, Locals, LocalPart;
    if i < |es| {
      NextOffset(es, i);
      LocalPartLength(es[i]);
      OffsetBound(es, i + 1);
      if Offset(es, i + 1) <= MAX32 && |es[i].bytes| <= MAX32 && |NameBytes(es[i].name)| <= MAX16 {
        LayoutErrorKind(es, i + 1);
      }
    }
  }

  lemma SameFolded(casing: Casing, input: seq<Entry>)
    requires !DistinctKeys(input, FoldKey(casing))
    ensures exists i, j :: 0 <= i < j < |input| && casing.fold(input[i].name) == casing.fold(input[j].name)
  {
    var i, j :| 0 <= i < j < |input| && FoldKey(casing)(input[i]) == FoldKey(casing)(input[j]);
    EncodeInjective(Utf16, casing.fold(input[i].name), casing.fold(input[j].name));
  }

  /** What each refusal means for the files that were to be packed. */
  lemma FailureMeans(casing: Casing, input: seq<Entry>)
    requires Failure(casing, input).Some?
    ensures match Failure(casing, input).value
            case TooManyFiles => |input| > 65535
            case DuplicatePath =>
              exists i, j :: 0 <= i < j < |input| && casing.fold(input[i].name) == casing.fold(input[j].name)
            case TooLarge => |Locals(SortedEntries(input))| > 0xffffffff
            case FieldOutOfRange => !Fits(SortedEntries(input))
            case error => exists e :: e in input && PathError(casing, e.name) == Some(error)
  {
    hide PathError, FirstPathError, LayoutError, Locals, Centrals, DistinctKeys, NameBytes;
    var es := SortedEntries(input);
    SortedDistinct(casing, input);
    LayoutFits(es);
    LastOffset(es);
    if !DistinctKeys(es, FoldKey(casing)) { SameFolded(casing, input); }
    if FirstPathError(casing, input).Some? {
      FirstPathErrorOf(casing, input);
    } else if LayoutError(es, 0, 0).Some? {
      LayoutErrorKind(es, 0);
    }
  }

  /** Files that are packed have names that differ without regard to case. */
  lemma PackedNamesDiffer(casing: Casing, input: seq<Entry>)
    requires Failure(casing, input).None?
    ensures forall i, j :: 0 <= i < j < |input| ==> casing.fold(input[i].name) != casing.fold(input[j].name)
  {
    FailureIffNotPackable(casing, input);
    forall i, j | 0 <= i < j < |input| ensures casing.fold(input[i].name) != casing.fold(input[j].name) {
      assert FoldKey(casing)(input[i]) != FoldKey(casing)(input[j]);
    }
  }

  // ----- Order of the input -----

  lemma FoldDistinctNames(casing: Casing, input: seq<Entry>)
    requires DistinctKeys(input, FoldKey(casing))
    ensures DistinctKeys(input, NameKey())
  {
    forall i, j | 0 <= i < j < |input| ensures NameKey()(input[i]) != NameKey()(input[j]) {
      if NameKey()(input[i]) == NameKey()(input[j]) { EncodeInjective(Utf16, input[i].name, input[j].name); }
    }
  }

  lemma SortedStrictly(casing: Casing, input: seq<Entry>)
    requires DistinctKeys(input, FoldKey(casing))
    ensures StrictlySorted(SortedEntries(input), NameKey())
    ensures Elements(SortedEntries(input)) == Elements(input)
  {
    var es := SortedEntries(input);
    FoldDistinctNames(casing, input);
    DistinctPermutation(input, es, NameKey());
    SortBySorted(input, NameKey());
    SortedDistinctIsStrict(es, NameKey());
    SameElements(input, es);
  }

  /** Two orderings of the same entries are packed alike: both refused, or the same bytes. */
  lemma OrderIndependent(casing: Casing, a: seq<Entry>, b: seq<Entry>)
    requires multiset(a) == multiset(b)
    ensures Packable(casing, a) <==> Packable(casing, b)
    ensures Packable(casing, a) ==> Archive(SortedEntries(a)) == Archive(SortedEntries(b))
  {
    hide Fits, Archive, PathError;
    SameElements(a, b);
    assert forall e :: e in a <==> e in Elements(a);
    assert forall e :: e in b <==> e in Elements(b);
    if DistinctKeys(a, FoldKey(casing)) || DistinctKeys(b, FoldKey(casing)) {
      if DistinctKeys(a, FoldKey(casing)) { DistinctPermutation(a, b, FoldKey(casing)); }
      if DistinctKeys(b, FoldKey(casing)) { DistinctPermutation(b, a, FoldKey(casing)); }
      SortedStrictly(casing, a);
      SortedStrictly(casing, b);
      StrictlySortedUnique(SortedEntries(a), SortedEntries(b), NameKey());
    }
  }

  /** Whatever was packed is read back: every entry once, in name order, and nothing else. */
  lemma PackedIsRead(casing: Casing, input: seq<Entry>)
    requires Packable(casing, input)
    ensures ReadArchive(Archive(SortedEntries(input))) == Some(SortedEntries(input))
    ensures multiset(SortedEntries(input)) == multiset(input)
    ensures StrictlySorted(SortedEntries(input), NameKey())
  {
    RoundTrip(SortedEntries(input));
    SortedStrictly(casing, input);
  }

  // ----- The buffers -----

  /** `buffer.writeUInt16LE(value, offset)`; the fields of a record are written in order. */
  method WriteUInt16LE(buffer: array<Byte>, value: nat, offset: nat, ghost before: Bytes) returns (ghost written: Bytes)
    requires value <= MAX16 && offset + 2 <= buffer.Length && buffer[..offset] == before
    modifies buffer
    ensures written == before + LE16(value) && buffer[..offset + 2] == written
  {
    buffer[offset] := value % 256;
    buffer[offset + 1] := value / 256;
    written := before + LE16(value);
  }

  method WriteUInt32LE(buffer: array<Byte>, value: nat, offset: nat, ghost before: Bytes) returns (ghost written: Bytes)
    requires value <= MAX32 && offset + 4 <= buffer.Length && buffer[..offset] == before
    modifies buffer
    ensures written == before + LE32(value) && buffer[..offset + 4] == written
  {
    buffer[offset] := value % 256;
    buffer[offset + 1] := value / 256 % 256;
    buffer[offset + 2] := value / 65536 % 256;
    buffer[offset + 3] := value / 16777216;
    written := before + LE32(value);
  }

  method BuildLocalHeader(nameLength: nat, size: nat, crc: nat) returns (local: array<Byte>)
    requires nameLength <= MAX16 && size <= MAX32 && crc <= MAX32
    ensures fresh(local) && local[..] == LocalHeader(nameLength, size, crc)
  {
    hide LE16, LE32;
    local := new Byte[30](_ => 0);
    ghost var h := WriteUInt32LE(local, LOCAL_SIGNATURE, 0, []);
    assert h == LE32(LOCAL_SIGNATURE);
    h := WriteUInt16LE(local, 20, 4, h);
    h := WriteUInt16LE(local, UTF8_FLAG, 6, h);
    h := WriteUInt16LE(local, STORED, 8, h);
    h := WriteUInt16LE(local, 0, 10, h);
    h := WriteUInt16LE(local, 0x0021, 12, h);
    h := WriteUInt32LE(local, crc, 14, h);
    h := WriteUInt32LE(local, size, 18, h);
    h := WriteUInt32LE(local, size, 22, h);
    h := WriteUInt16LE(local, nameLength, 26, h);
    h := WriteUInt16LE(local, 0, 28, h);
    assert local[..] == local[..30];
  }

  method BuildCentralHeader(nameLength: nat, size: nat, crc: nat, offset: nat) returns (central: array<Byte>)
    requires nameLength <= MAX16 && size <= MAX32 && crc <= MAX32 && offset <= MAX32
    ensures fresh(central) && central[..] == CentralHeader(nameLength, size, crc, offset)
  {
    hide LE16, LE32;
    central := new Byte[46](_ => 0);
    ghost var h := WriteUInt32LE(central, CENTRAL_SIGNATURE, 0, []);
    assert h == LE32(CENTRAL_SIGNATURE);
    h := WriteUInt16LE(central, 0x0314, 4, h);
    h := WriteUInt16LE(central, 20, 6, h);
    h := WriteUInt16LE(central, UTF8_FLAG, 8, h);
    h := WriteUInt16LE(central, STORED, 10, h);
    h := WriteUInt16LE(central, 0, 12, h);
    h := WriteUInt16LE(central, 0x0021, 14, h);
    h := WriteUInt32LE(central, crc, 16, h);
    h := WriteUInt32LE(central, size, 20, h);
    h := WriteUInt32LE(central, size, 24, h);
    h := WriteUInt16LE(central, nameLength, 28, h);
    h := WriteUInt16LE(central, 0, 30, h);
    h := WriteUInt16LE(central, 0, 32, h);
    h := WriteUInt16LE(central, 0, 34, h);
    h := WriteUInt16LE(central, 0, 36, h);
    h := WriteUInt32LE(central, REGULAR_FILE, 38, h);
    h := WriteUInt32LE(central, offset, 42, h);
    assert central[..] == central[..46];
  }

  method BuildEndRecord(count: nat, centralSize: nat, offset: nat) returns (end: array<Byte>)
    requires count <= MAX16 && centralSize <= MAX32 && offset <= MAX32
    ensures fresh(end) && end[..] == EndRecord(count, centralSize, offset)
  {
    hide LE16, LE32;
    end := new Byte[22](_ => 0);
    ghost var h := WriteUInt32LE(end, END_SIGNATURE, 0, []);
    assert h == LE32(END_SIGNATURE);
    h := WriteUInt16LE(end, 0, 4, h);
    h := WriteUInt16LE(end, 0, 6, h);
    h := WriteUInt16LE(end, count, 8, h);
    h := WriteUInt16LE(end, count, 10, h);
    h := WriteUInt32LE(end, centralSize, 12, h);
    h := WriteUInt32LE(end, offset, 16, h);
    h := WriteUInt16LE(end, 0, 20, h);
    assert end[..] == end[..22];
  }

  lemma FoldApart(casing: Casing, entries: seq<Entry>, i: nat)
    requires i < |entries| && DistinctKeys(entries[..i], FoldKey(casing))
    requires forall j :: 0 <= j < i ==> casing.fold(entries[j].name) != casing.fold(entries[i].name)
    ensures DistinctKeys(entries[..i + 1], FoldKey(casing))
  {
    forall j | 0 <= j < i ensures FoldKey(casing)(entries[j]) != FoldKey(casing)(entries[i]) {
      if FoldKey(casing)(entries[j]) == FoldKey(casing)(entries[i]) {
        EncodeInjective(Utf16, casing.fold(entries[j].name), casing.fold(entries[i].name));
      }
    }
  }

  /** The folded names seen so far decide whether a path is a duplicate. */
  method HasDuplicate(casing: Casing, entries: seq<Entry>) returns (duplicate: bool)
    ensures duplicate <==> !DistinctKeys(entries, FoldKey(casing))
  {
    var foldedNames: set<string> := {};
    for i := 0 to |entries|
      invariant DistinctKeys(entries[..i], FoldKey(casing))
      invariant forall f :: f in foldedNames <==> exists j :: 0 <= j < i && casing.fold(entries[j].name) == f
    {
      var folded := casing.fold(entries[i].name);
      if folded in foldedNames {
        var j :| 0 <= j < i && casing.fold(entries[j].name) == folded;
        assert FoldKey(casing)(entries[j]) == FoldKey(casing)(entries[i]);
        return true;
      }
      FoldApart(casing, entries, i);
      foldedNames := foldedNames + {folded};
    }
    assert entries[..|entries|] == entries;
    duplicate := false;
  }

  method BuildDeterministicZip(casing: Casing, input: seq<Entry>) returns (r: Result<Bytes, ZipError>)
    ensures match Failure(casing, input)
            case Some(e) => r == Err(e)
            case None => r == Ok(Archive(SortedEntries(input)))
  {
    hide LocalPart, CentralPart, Archive, PathError, LocalHeader, CentralHeader, EndRecord;
    var refused := FirstPathError(casing, input);
    if refused.Some? { return Err(refused.value); }
    var entries := SortBy(input, NameKey());
    assert entries == SortedEntries(input);
    if |entries| > 0xffff { return Err(TooManyFiles); }
    var duplicate := HasDuplicate(casing, entries);
    if duplicate { return Err(DuplicatePath); }
    r := LayOut(entries);
  }

  lemma PartsNext(es: seq<Entry>, i: nat)
    requires i < |es|
    ensures LocalParts(es)[..i + 1] == LocalParts(es)[..i] + [LocalPart(es[i])]
    ensures CentralParts(es)[..i + 1] == CentralParts(es)[..i] + [CentralPart(es[i], Offset(es, i))]
  {
    hide LocalPart, CentralPart, Offset;
  }

  lemma AllParts(es: seq<Entry>)
    ensures LocalParts(es)[..0] == [] && LocalParts(es)[..|es|] == LocalParts(es)
    ensures CentralParts(es)[..0] == [] && CentralParts(es)[..|es|] == CentralParts(es)
  {
    hide LocalPart, CentralPart, Offset;
  }

  method LayOut(entries: seq<Entry>) returns (r: Result<Bytes, ZipError>)
    requires |entries| <= MAX16
    ensures r == if LayoutError(entries, 0, 0).Some? then Err(LayoutError(entries, 0, 0).value)
                 else if |Centrals(entries)| > MAX32 then Err(FieldOutOfRange)
                 else Ok(Archive(entries))
  {
    hide LocalPart, CentralPart, Offset, LocalParts, CentralParts, Concat, NameBytes, EndRecord;
    var table := CrcTable();
    var localParts: seq<Bytes>, centralParts: seq<Bytes>, offset: nat := [], [], 0;
    LastOffset(entries);
    AllParts(entries);
    for i := 0 to |entries|
      invariant localParts == LocalParts(entries)[..i] && centralParts == CentralParts(entries)[..i]
      invariant offset == Offset(entries, i) && offset <= MAX32
      invariant LayoutError(entries, 0, 0) == LayoutError(entries, i, offset)
    {
      var entry := entries[i];
      var nameBytes := NameBytes(entry.name);
      // The `write` calls throw when a value does not fit its field.
      if |entry.bytes| > MAX32 || |nameBytes| > MAX16 { return Err(FieldOutOfRange); }
      var local, central := BuildParts(table, entry, offset);
      PartsNext(entries, i);
      localParts := localParts + [local];
      centralParts := centralParts + [central];
      NextOffset(entries, i);
      LocalPartLength(entry);
      offset := offset + 30 + |nameBytes| + |entry.bytes|;
      if offset > 0xffffffff { return Err(TooLarge); }
    }
    var centralSize := |Concat(centralParts)|;
    if centralSize > MAX32 { return Err(FieldOutOfRange); }
    var end := BuildEndRecord(|entries|, centralSize, offset);
    r := Ok(Concat(localParts) + Concat(centralParts) + end[..]);
  }

  method BuildParts(table: seq<Word>, entry: Entry, offset: nat) returns (local: Bytes, central: Bytes)
    requires IsTable(table) && offset <= MAX32
    requires |entry.bytes| <= MAX32 && |NameBytes(entry.name)| <= MAX16
    ensures local == LocalPart(entry) && central == CentralPart(entry, offset)
  {
    hide LocalHeader, CentralHeader;
    var crc := ComputeCrc(table, entry.bytes);
    CrcInRange(entry.bytes);
    var nameBytes := NameBytes(entry.name);
    var localHeader := BuildLocalHeader(|nameBytes|, |entry.bytes|, Value(crc));
    var centralHeader := BuildCentralHeader(|nameBytes|, |entry.bytes|, Value(crc), offset);
    local := localHeader[..] + nameBytes + entry.bytes;
    central := centralHeader[..] + nameBytes;
  }
}
