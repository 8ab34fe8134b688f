/**
 The parts of the ZIP format the archive writer uses (APPNOTE sections 4.3.7, 4.3.12, 4.3.16 and
 4.4.7): the layout of the records, and a reader that starts from the end record.
 */
module ZipFormat {
  import opened Wrappers
  import opened Unicode
  import opened Crc32

  type Bytes = seq<Byte>

  datatype Entry = Entry(name: string, bytes: Bytes)

  const MAX16: nat := 0xffff
  const MAX32: nat := 0xffffffff

  const LOCAL_SIGNATURE: nat := 0x04034b50
  const CENTRAL_SIGNATURE: nat := 0x02014b50
  const END_SIGNATURE: nat := 0x06054b50
  /** General purpose bit 11: the name is UTF-8. */
  const UTF8_FLAG: nat := 0x0800
  const STORED: nat := 0
  /** `(0o100644 << 16) >>> 0`. */
  const REGULAR_FILE: nat := 0x81a40000

  function LE16(v: nat): (b: Bytes)
    ensures |b| == 2
  {
    [v % 256, v / 256 % 256]
  }

  function LE32(v: nat): (b: Bytes)
    ensures |b| == 4
  {
    [v % 256, v / 256 % 256, v / 65536 % 256, v / 16777216 % 256]
  }

  function NameBytes(name: string): Bytes
  {
    Utf8Bytes(name);
    Encode(Utf8, name)
  }

  // ----- Records -----

  function LocalHeader(nameLength: nat, size: nat, crc: nat): (h: Bytes)
    ensures |h| == 30
  {
    LE32(LOCAL_SIGNATURE) + LE16(20) + LE16(UTF8_FLAG) + LE16(STORED) + LE16(0) + LE16(0x0021) + LE32(crc)
    + LE32(size) + LE32(size) + LE16(nameLength) + LE16(0)
  }

  function CentralHeader(nameLength: nat, size: nat, crc: nat, offset: nat): (h: Bytes)
    ensures |h| == 46
  {
    LE32(CENTRAL_SIGNATURE) + LE16(0x0314) + LE16(20) + LE16(UTF8_FLAG) + LE16(STORED) + LE16(0) + LE16(0x0021)
    + LE32(crc) + LE32(size) + LE32(size) + LE16(nameLength) + LE16(0) + LE16(0) + LE16(0) + LE16(0)
    + LE32(REGULAR_FILE) + LE32(offset)
  }

  function EndRecord(count: nat, centralSize: nat, centralOffset: nat): (h: Bytes)
    ensures |h| == 22
  {
    LE32(END_SIGNATURE) + LE16(0) + LE16(0) + LE16(count) + LE16(count) + LE32(centralSize)
    + LE32(centralOffset) + LE16(0)
  }

  function CrcOf(e: Entry): nat { Value(Crc(e.bytes)) }

  function LocalPart(e: Entry): Bytes
  {
    LocalHeader(|NameBytes(e.name)|, |e.bytes|, CrcOf(e)) + NameBytes(e.name) + e.bytes
  }

  function CentralPart(e: Entry, offset: nat): Bytes
  {
    CentralHeader(|NameBytes(e.name)|, |e.bytes|, CrcOf(e), offset) + NameBytes(e.name)
  }

  /** `Buffer.concat`. */
  function Concat(parts: seq<Bytes>): Bytes
  {
    if parts == [] then [] else Concat(parts[..|parts| - 1]) + parts[|parts| - 1]
  }

  function LocalParts(es: seq<Entry>): (parts: seq<Bytes>)
    ensures |parts| == |es|
  {
    seq(|es|, i requires 0 <= i < |es| => LocalPart(es[i]))
  }

  /** Where the local header of entry `i` begins. */
  function Offset(es: seq<Entry>, i: nat): nat
    requires i <= |es|
  {
    |Concat(LocalParts(es)[..i])|
  }

  function CentralParts(es: seq<Entry>): (parts: seq<Bytes>)
    ensures |parts| == |es|
  {
    seq(|es|, i requires 0 <= i < |es| => CentralPart(es[i], Offset(es, i)))
  }

  function Locals(es: seq<Entry>): Bytes { Concat(LocalParts(es)) }

  function Centrals(es: seq<Entry>): Bytes { Concat(CentralParts(es)) }

  function Archive(es: seq<Entry>): Bytes
  {
    Locals(es) + Centrals(es) + EndRecord(|es|, |Centrals(es)|, |Locals(es)|)
  }

  // ----- Reader -----

  function U16(z: Bytes, p: nat): nat
    requires p + 2 <= |z|
  {
    z[p] as nat + 256 * z[p + 1] as nat
  }

  function U32(z: Bytes, p: nat): nat
    requires p + 4 <= |z|
  {
    z[p] as nat + 256 * z[p + 1] as nat + 65536 * z[p + 2] as nat + 16777216 * z[p + 3] as nat
  }

  /** A record begins with the letters `PK` and two numbers that tell its kind. */
  function Signature(a: nat, b: nat): nat { 'P' as nat + 256 * 'K' as nat + 65536 * a + 16777216 * b }

  function DosDate(year: nat, month: nat, day: nat): nat
    requires 1980 <= year
  {
    512 * (year - 1980) + 32 * month + day
  }

  /** The mode of a regular file with its permissions, in the upper half of the external attributes. */
  function RegularFile(owner: nat, group: nat, others: nat): nat
  {
    65536 * (8 * 4096 + 64 * owner + 8 * group + others)
  }

  /**
   From the version needed to the date: version 2.0, a name in UTF-8 and no other flag, no compression, and midnight of
   the first day the format can name.
   */
  predicate Plain(z: Bytes, p: nat)
    requires p + 10 <= |z|
  {
    U16(z, p) == 20 && U16(z, p + 2) == 2048 && U16(z, p + 4) == 0 && U16(z, p + 6) == 0
    && U16(z, p + 8) == DosDate(1980, 1, 1)
  }

  /** Made on Unix, on the first disk, as a regular file that its owner may write and everybody may read. */
  predicate Regular(z: Bytes, p: nat)
    requires p + 46 <= |z|
  {
    U16(z, p + 4) / 256 == 3 && U16(z, p + 34) == 0 && U32(z, p + 38) == RegularFile(6, 4, 4)
  }

  /** The last position holding an end record whose comment runs to the end of the file. */
  function FindEnd(z: Bytes, p: nat): (end: Option<nat>)
    requires p + 22 <= |z|
    ensures end.Some? ==> end.value <= p && U32(z, end.value) == Signature(5, 6)
  {
    if U32(z, p) == Signature(5, 6) && p + 22 + U16(z, p + 20) == |z| then Some(p)
    else if p == 0 then None
    else FindEnd(z, p - 1)
  }

  /** The file behind a local header, if it agrees with its central directory entry. */
  function ReadLocal(z: Bytes, p: nat, name: Bytes, crc: nat, size: nat): Option<Bytes>
  {
    if p + 30 > |z| || U32(z, p) != Signature(3, 4) then None
    else if !Plain(z, p + 4) then None
    else if U32(z, p + 14) != crc || U32(z, p + 18) != size || U32(z, p + 22) != size then None
    else
      var n, x := U16(z, p + 26), U16(z, p + 28);
      var data := p + 30 + n + x;
      if data + size > |z| || z[p + 30..p + 30 + n] != name then None
      else if Value(Crc(z[data..data + size])) != crc then None
      else Some(z[data..data + size])
  }

  function ReadCentral(z: Bytes, p: nat, count: nat, end: nat): Option<seq<Entry>>
    decreases count
  {
    if count == 0 then if p == end then Some([]) else None
    else if p + 46 > |z| || U32(z, p) != Signature(1, 2) then None
    else if !Plain(z, p + 6) || U32(z, p + 20) != U32(z, p + 24) then None
    else if !Regular(z, p) then None
    else
      var n, x, c := U16(z, p + 28), U16(z, p + 30), U16(z, p + 32);
      if p + 46 + n + x + c > |z| then None else
        var nameBytes := z[p + 46..p + 46 + n];
        match DecodeUtf8(nameBytes)
        case None => None
        case Some(name) =>
          match ReadLocal(z, U32(z, p + 42), nameBytes, U32(z, p + 16), U32(z, p + 24))
          case None => None
          case Some(data) =>
            match ReadCentral(z, p + 46 + n + x + c, count - 1, end)
            case None => None
            case Some(rest) => Some([Entry(name, data)] + rest)
  }

  function ReadArchive(z: Bytes): Option<seq<Entry>>
  {
    if |z| < 22 then None else
      match FindEnd(z, |z| - 22)
      case None => None
      case Some(p) =>
        if U16(z, p + 4) != 0 || U16(z, p + 6) != 0 then None
        else if U16(z, p + 8) != U16(z, p + 10) || U32(z, p + 16) + U32(z, p + 12) != p then None
        else ReadCentral(z, U32(z, p + 16), U16(z, p + 10), p)
  }
}
