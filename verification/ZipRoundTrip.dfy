/** Reading back what the archive writer lays out. */
module ZipRoundTrip {
  import opened Wrappers
  import opened Unicode
  import opened Crc32
  import opened ZipFormat

  /** Every number the archive has to hold fits the field that holds it. */
  ghost predicate Fits(es: seq<Entry>)
  {
    |es| <= MAX16 && |Locals(es)| <= MAX32 && |Centrals(es)| <= MAX32
    && forall i :: 0 <= i < |es| ==> |NameBytes(es[i].name)| <= MAX16 && |es[i].bytes| <= MAX32
  }

  /** `part` stands in `z` at `p`. */
  ghost predicate At(z: Bytes, p: nat, part: Bytes)
  {
    p + |part| <= |z| && z[p..p + |part|] == part
  }

  lemma AtConcat(z: Bytes, p: nat, a: Bytes, b: Bytes)
    ensures At(z, p, a + b) <==> At(z, p, a) && At(z, p + |a|, b)
  {
    if At(z, p, a + b) {
      assert z[p..p + |a|] == z[p..p + |a + b|][..|a|] == a;
      assert z[p + |a|..p + |a| + |b|] == z[p..p + |a + b|][|a|..] == b;
    }
    if At(z, p, a) && At(z, p + |a|, b) {
      assert z[p..p + |a + b|] == z[p..p + |a|] + z[p + |a|..p + |a| + |b|];
    }
  }

  lemma AtThree(z: Bytes, p: nat, a: Bytes, b: Bytes, c: Bytes)
    requires At(z, p, a + b + c)
    ensures At(z, p, a) && At(z, p + |a|, b) && At(z, p + |a| + |b|, c)
  {
    AtConcat(z, p, a + b, c);
    AtConcat(z, p, a, b);
  }

  /** Part `i` of a concatenation begins where the parts before it end. */
  lemma {:induction false} AtPart(z: Bytes, p: nat, parts: seq<Bytes>, i: nat)
    requires At(z, p, Concat(parts)) && i < |parts|
    ensures At(z, p + |Concat(parts[..i])|, parts[i])
  {
    var n := |parts| - 1;
    AtConcat(z, p, Concat(parts[..n]), parts[n]);
    if i < n {
      AtPart(z, p, parts[..n], i);
      assert parts[..n][..i] == parts[..i];
    }
  }

  ghost predicate LocalFacts(z: Bytes, p: nat, nameLength: nat, size: nat, crc: nat)
  {
    p + 30 <= |z|
    && U32(z, p) == Signature(3, 4) && Plain(z, p + 4)
    && U32(z, p + 14) == crc && U32(z, p + 18) == size && U32(z, p + 22) == size
    && U16(z, p + 26) == nameLength && U16(z, p + 28) == 0
  }

  ghost predicate CentralFacts(z: Bytes, p: nat, nameLength: nat, size: nat, crc: nat, offset: nat)
  {
    p + 46 <= |z|
    && U32(z, p) == Signature(1, 2) && Plain(z, p + 6) && Regular(z, p)
    && U32(z, p + 16) == crc && U32(z, p + 20) == size && U32(z, p + 24) == size
    && U16(z, p + 28) == nameLength && U16(z, p + 30) == 0 && U16(z, p + 32) == 0 && U32(z, p + 42) == offset
  }

  ghost predicate EndFacts(z: Bytes, p: nat, count: nat, centralSize: nat, centralOffset: nat)
  {
    p + 22 <= |z|
    && U32(z, p) == Signature(5, 6) && U16(z, p + 4) == 0 && U16(z, p + 6) == 0
    && U16(z, p + 8) == count && U16(z, p + 10) == count
    && U32(z, p + 12) == centralSize && U32(z, p + 16) == centralOffset && U16(z, p + 20) == 0
  }

  /** The ten bytes that the local header and the central directory entry share. */
  function PlainBytes(): Bytes { LE16(20) + LE16(UTF8_FLAG) + LE16(STORED) + LE16(0) + LE16(0x0021) }

  lemma Within(w: Bytes, i: nat, b: Bytes, j: nat)
    requires i + |b| <= |w| && w[i..i + |b|] == b && j + 2 <= |b|
    ensures w[i + j..i + j + 2] == b[j..j + 2]
  {
    var c, d := w[i + j..i + j + 2], b[j..j + 2];
    forall k | 0 <= k < 2 ensures c[k] == d[k] {
      assert c[k] == w[i + (j + k)] == w[i..i + |b|][j + k] == b[j + k] == d[k];
    }
  }

  lemma PlainFields(z: Bytes, p: nat, w: Bytes, i: nat)
    requires p + |w| <= |z| && z[p..p + |w|] == w && i + 10 <= |w| && w[i..i + 10] == PlainBytes()
    ensures Plain(z, p + i)
  {
    var b := PlainBytes();
    assert b[0..2] == LE16(20) && b[2..4] == LE16(UTF8_FLAG) && b[4..6] == LE16(STORED);
    assert b[6..8] == LE16(0) && b[8..10] == LE16(0x0021);
    Within(w, i, b, 0);
    Within(w, i, b, 2);
    Within(w, i, b, 4);
    Within(w, i, b, 6);
    Within(w, i, b, 8);
    Record16(z, p, w, i, 20);
    Record16(z, p, w, i + 2, UTF8_FLAG);
    Record16(z, p, w, i + 4, STORED);
    Record16(z, p, w, i + 6, 0);
    Record16(z, p, w, i + 8, 0x0021);
  }

  lemma LocalFields(z: Bytes, p: nat, nameLength: nat, size: nat, crc: nat)
    requires At(z, p, LocalHeader(nameLength, size, crc))
    requires nameLength <= MAX16 && size <= MAX32 && crc <= MAX32
    ensures LocalFacts(z, p, nameLength, size, crc)
  {
    var w := z[p..p + 30];
    var h := LocalHeader(nameLength, size, crc);
    assert h[0..4] == LE32(LOCAL_SIGNATURE) && h[4..14] == PlainBytes();
    assert h[14..18] == LE32(crc) && h[18..22] == LE32(size) && h[22..26] == LE32(size);
    assert h[26..28] == LE16(nameLength) && h[28..30] == LE16(0);
    PlainFields(z, p, w, 4);
    Record16(z, p, w, 26, nameLength);
    Record16(z, p, w, 28, 0);
    Record32(z, p, w, 0, LOCAL_SIGNATURE);
    Record32(z, p, w, 14, crc);
    Record32(z, p, w, 18, size);
    Record32(z, p, w, 22, size);
  }

  lemma CentralOrigin(z: Bytes, p: nat, nameLength: nat, size: nat, crc: nat, offset: nat)
    requires At(z, p, CentralHeader(nameLength, size, crc, offset))
    ensures Plain(z, p + 6) && Regular(z, p) && U32(z, p) == Signature(1, 2)
  {
    hide Plain;
    var w := z[p..p + 46];
    var h := CentralHeader(nameLength, size, crc, offset);
    assert h[0..4] == LE32(CENTRAL_SIGNATURE) && h[4..6] == LE16(0x0314) && h[6..16] == PlainBytes();
    assert h[34..36] == LE16(0) && h[38..42] == LE32(REGULAR_FILE);
    PlainFields(z, p, w, 6);
    Record16(z, p, w, 4, 0x0314);
    Record16(z, p, w, 34, 0);
    Record32(z, p, w, 0, CENTRAL_SIGNATURE);
    Record32(z, p, w, 38, REGULAR_FILE);
  }

  lemma CentralFields(z: Bytes, p: nat, nameLength: nat, size: nat, crc: nat, offset: nat)
    requires At(z, p, CentralHeader(nameLength, size, crc, offset))
    requires nameLength <= MAX16 && size <= MAX32 && crc <= MAX32 && offset <= MAX32
    ensures CentralFacts(z, p, nameLength, size, crc, offset)
  {
    hide Plain, Regular;
    CentralOrigin(z, p, nameLength, size, crc, offset);
    var w := z[p..p + 46];
    var h := CentralHeader(nameLength, size, crc, offset);
    assert h[16..20] == LE32(crc) && h[20..24] == LE32(size) && h[24..28] == LE32(size);
    assert h[28..30] == LE16(nameLength) && h[30..32] == LE16(0) && h[32..34] == LE16(0) && h[42..46] == LE32(offset);
    Record16(z, p, w, 28, nameLength);
    Record16(z, p, w, 30, 0);
    Record16(z, p, w, 32, 0);
    Record32(z, p, w, 16, crc);
    Record32(z, p, w, 20, size);
    Record32(z, p, w, 24, size);
    Record32(z, p, w, 42, offset);
  }

  lemma EndFields(z: Bytes, p: nat, count: nat, centralSize: nat, centralOffset: nat)
    requires At(z, p, EndRecord(count, centralSize, centralOffset))
    requires count <= MAX16 && centralSize <= MAX32 && centralOffset <= MAX32
    ensures EndFacts(z, p, count, centralSize, centralOffset)
  {
    var w := z[p..p + 22];
    var h := EndRecord(count, centralSize, centralOffset);
    assert h[0..4] == LE32(END_SIGNATURE) && h[4..6] == LE16(0) && h[6..8] == LE16(0);
    assert h[8..10] == LE16(count) && h[10..12] == LE16(count);
    assert h[12..16] == LE32(centralSize) && h[16..20] == LE32(centralOffset);
    assert h[20] == 0 && h[21] == 0 && h[20..22] == [h[20], h[21]];
    Record16(z, p, w, 4, 0);
    Record16(z, p, w, 6, 0);
    Record16(z, p, w, 8, count);
    Record16(z, p, w, 10, count);
    Record16(z, p, w, 20, 0);
    Record32(z, p, w, 0, END_SIGNATURE);
    Record32(z, p, w, 12, centralSize);
    Record32(z, p, w, 16, centralOffset);
  }

  lemma Record16(z: Bytes, p: nat, w: Bytes, i: nat, v: nat)
    requires p + |w| <= |z| && z[p..p + |w|] == w && i + 2 <= |w| && w[i..i + 2] == LE16(v) && v <= MAX16
    ensures U16(z, p + i) == v
  {
    assert z[p + i] == w[i] == w[i..i + 2][0];
    assert z[p + i + 1] == w[i + 1] == w[i..i + 2][1];
  }

  lemma Record32(z: Bytes, p: nat, w: Bytes, i: nat, v: nat)
    requires p + |w| <= |z| && z[p..p + |w|] == w && i + 4 <= |w| && w[i..i + 4] == LE32(v) && v <= MAX32
    ensures U32(z, p + i) == v
  {
    assert z[p + i] == w[i] == w[i..i + 4][0];
    assert z[p + i + 1] == w[i + 1] == w[i..i + 4][1];
    assert z[p + i + 2] == w[i + 2] == w[i..i + 4][2];
    assert z[p + i + 3] == w[i + 3] == w[i..i + 4][3];
    assert v / 65536 == v / 256 / 256 && v / 16777216 == v / 65536 / 256;
  }

  // ----- Where the records are -----

  lemma LocalPartFields(z: Bytes, p: nat, e: Entry)
    requires At(z, p, LocalPart(e)) && |NameBytes(e.name)| <= MAX16 && |e.bytes| <= MAX32
    ensures LocalFacts(z, p, |NameBytes(e.name)|, |e.bytes|, CrcOf(e))
    ensures At(z, p + 30, NameBytes(e.name)) && At(z, p + 30 + |NameBytes(e.name)|, e.bytes)
  {
    hide Crc, Value, LocalFacts;
    CrcInRange(e.bytes);
    AtThree(z, p, LocalHeader(|NameBytes(e.name)|, |e.bytes|, CrcOf(e)), NameBytes(e.name), e.bytes);
    LocalFields(z, p, |NameBytes(e.name)|, |e.bytes|, CrcOf(e));
  }

  lemma ReadLocalPart(z: Bytes, p: nat, name: Bytes, bytes: Bytes, crc: nat)
    requires LocalFacts(z, p, |name|, |bytes|, crc) && crc == Value(Crc(bytes))
    requires At(z, p + 30, name) && At(z, p + 30 + |name|, bytes)
    ensures ReadLocal(z, p, name, crc, |bytes|) == Some(bytes)
  {
    hide Crc, Value;
  }

  lemma CentralPartFields(z: Bytes, p: nat, e: Entry, offset: nat)
    requires At(z, p, CentralPart(e, offset))
    requires |NameBytes(e.name)| <= MAX16 && |e.bytes| <= MAX32 && offset <= MAX32
    ensures CentralFacts(z, p, |NameBytes(e.name)|, |e.bytes|, CrcOf(e), offset)
    ensures At(z, p + 46, NameBytes(e.name)) && |CentralPart(e, offset)| == 46 + |NameBytes(e.name)|
  {
    hide Crc, Value, CentralFacts;
    CrcInRange(e.bytes);
    AtConcat(z, p, CentralHeader(|NameBytes(e.name)|, |e.bytes|, CrcOf(e), offset), NameBytes(e.name));
    CentralFields(z, p, |NameBytes(e.name)|, |e.bytes|, CrcOf(e), offset);
  }

  lemma DecodeName(name: string)
    ensures DecodeUtf8(NameBytes(name)) == Some(name)
  {
    DecodeEncode(name);
  }

  lemma ReadCentralPart(z: Bytes, p: nat, e: Entry, offset: nat, count: nat, end: nat)
    requires var n := |NameBytes(e.name)|;
             CentralFacts(z, p, n, |e.bytes|, CrcOf(e), offset) && At(z, p + 46, NameBytes(e.name))
    requires ReadLocal(z, offset, NameBytes(e.name), CrcOf(e), |e.bytes|) == Some(e.bytes) && 0 < count
    ensures var rest := ReadCentral(z, p + 46 + |NameBytes(e.name)|, count - 1, end);
            ReadCentral(z, p, count, end) == if rest.Some? then Some([e] + rest.value) else None
  {
    hide ReadLocal, DecodeUtf8, CrcOf, NameBytes;
    DecodeName(e.name);
  }

  lemma ReadNothing(z: Bytes, end: nat)
    ensures ReadCentral(z, end, 0, end) == Some([])
  {}

  /** Where the central directory entry `i` begins. */
  ghost function CentralOffset(es: seq<Entry>, i: nat): nat
    requires i <= |es|
  {
    |Locals(es)| + |Concat(CentralParts(es)[..i])|
  }

  lemma EndOffsets(es: seq<Entry>)
    ensures CentralOffset(es, 0) == |Locals(es)| && CentralOffset(es, |es|) == |Locals(es)| + |Centrals(es)|
  {
    hide CentralPart;
    assert CentralParts(es)[..0] == [] && CentralParts(es)[..|es|] == CentralParts(es);
  }

  lemma ConcatNext(parts: seq<Bytes>, i: nat)
    requires i < |parts|
    ensures Concat(parts[..i + 1]) == Concat(parts[..i]) + parts[i]
  {
    assert parts[..i + 1][..i] == parts[..i] && parts[..i + 1][i] == parts[i];
  }

  lemma NextCentral(es: seq<Entry>, i: nat)
    requires i < |es|
    ensures CentralOffset(es, i + 1) == CentralOffset(es, i) + |CentralPart(es[i], Offset(es, i))|
  {
    hide CentralPart, LocalPart, Offset, Locals;
    ConcatNext(CentralParts(es), i);
  }

  lemma PartsAt(z: Bytes, es: seq<Entry>, i: nat)
    requires At(z, 0, Locals(es)) && At(z, |Locals(es)|, Centrals(es)) && i < |es|
    ensures At(z, Offset(es, i), LocalPart(es[i])) && Offset(es, i) <= |Locals(es)|
    ensures At(z, CentralOffset(es, i), CentralPart(es[i], Offset(es, i)))
  {
    hide At, LocalPart, CentralPart;
    AtPart(z, 0, LocalParts(es), i);
    AtPart(z, |Locals(es)|, CentralParts(es), i);
    PrefixLength(LocalParts(es), i);
  }

  lemma ReadEntry(z: Bytes, es: seq<Entry>, i: nat, count: nat, end: nat)
    requires Fits(es) && At(z, 0, Locals(es)) && At(z, |Locals(es)|, Centrals(es)) && i < |es| && 0 < count
    ensures var rest := ReadCentral(z, CentralOffset(es, i + 1), count - 1, end);
            ReadCentral(z, CentralOffset(es, i), count, end) == if rest.Some? then Some([es[i]] + rest.value) else None
  {
    hide ReadCentral, ReadLocal, LocalPart, CentralPart, LocalFacts, CentralFacts, At;
    hide CentralOffset, Offset, Locals, Centrals;
    var e, offset, p := es[i], Offset(es, i), CentralOffset(es, i);
    PartsAt(z, es, i);
    LocalPartFields(z, offset, e);
    ReadLocalPart(z, offset, NameBytes(e.name), e.bytes, CrcOf(e));
    CentralPartFields(z, p, e, offset);
    NextCentral(es, i);
    ReadCentralPart(z, p, e, offset, count, end);
  }

  lemma {:induction false} ReadEntries(z: Bytes, es: seq<Entry>, i: nat, end: nat)
    requires Fits(es) && i <= |es| && end == |Locals(es)| + |Centrals(es)|
    requires At(z, 0, Locals(es)) && At(z, |Locals(es)|, Centrals(es))
    ensures ReadCentral(z, CentralOffset(es, i), |es| - i, end) == Some(es[i..])
    decreases |es| - i
  {
    hide ReadCentral, At, Fits, CentralOffset, Locals, Centrals;
    if i == |es| {
      EndOffsets(es);
      assert es[i..] == [];
      ReadNothing(z, end);
    } else {
      ReadEntries(z, es, i + 1, end);
      ReadEntry(z, es, i, |es| - i, end);
      assert es[i..] == [es[i]] + es[i + 1..];
    }
  }

  lemma {:induction false} PrefixLength(parts: seq<Bytes>, i: nat)
    requires i <= |parts|
    ensures |Concat(parts[..i])| <= |Concat(parts)|
  {
    if i < |parts| {
      var n := |parts| - 1;
      PrefixLength(parts[..n], i);
      assert parts[..n][..i] == parts[..i];
    } else {
      assert parts[..i] == parts;
    }
  }

  lemma FindEndRecord(z: Bytes, p: nat, count: nat, centralSize: nat, centralOffset: nat)
    requires p + 22 == |z| && EndFacts(z, p, count, centralSize, centralOffset)
    ensures FindEnd(z, p) == Some(p)
  {}

  lemma ReadFromEnd(z: Bytes, p: nat, es: seq<Entry>, centralSize: nat, centralOffset: nat)
    requires p + 22 == |z| && EndFacts(z, p, |es|, centralSize, centralOffset) && centralOffset + centralSize == p
    requires ReadCentral(z, centralOffset, |es|, p) == Some(es)
    ensures ReadArchive(z) == Some(es)
  {
    hide ReadCentral;
    FindEndRecord(z, p, |es|, centralSize, centralOffset);
  }

  /** The reader recovers exactly the entries the archive was laid out from. */
  lemma RoundTrip(es: seq<Entry>)
    requires Fits(es)
    ensures ReadArchive(Archive(es)) == Some(es)
  {
    hide LocalPart, CentralPart, EndRecord, ReadCentral, ReadArchive;
    var z, end := Archive(es), |Locals(es)| + |Centrals(es)|;
    assert z[0..0 + |z|] == z;
    AtThree(z, 0, Locals(es), Centrals(es), EndRecord(|es|, |Centrals(es)|, |Locals(es)|));
    EndFields(z, end, |es|, |Centrals(es)|, |Locals(es)|);
    ReadEntries(z, es, 0, end);
    EndOffsets(es);
    assert es[0..] == es;
    ReadFromEnd(z, end, es, |Centrals(es)|, |Locals(es)|);
  }
}
