/** The table-driven CRC-32 of the archive writer against the bit-at-a-time definition. */
module Crc32 {
  type Byte = n: nat | n < 256

  // ----- Bits and 32-bit words, least significant bit first -----

  type Bits = seq<bool>

  function Zeros(n: nat): (z: Bits)
    ensures |z| == n && forall i :: 0 <= i < n ==> !z[i]
  {
    seq(n, _ => false)
  }

  function Ones(n: nat): (z: Bits)
    ensures |z| == n && forall i :: 0 <= i < n ==> z[i]
  {
    seq(n, _ => true)
  }

  type Word = w: Bits | |w| == 32 witness Zeros(32)

  function Value(b: Bits): nat
  {
    if b == [] then 0 else (if b[0] then 1 else 0) + 2 * Value(b[1..])
  }

  function BitsOf(n: nat, k: nat): (b: Bits)
    ensures |b| == k
  {
    if k == 0 then [] else [n % 2 == 1] + BitsOf(n / 2, k - 1)
  }

  function Pow2(k: nat): nat { if k == 0 then 1 else 2 * Pow2(k - 1) }

  lemma {:induction false} BitsOfValue(b: Bits)
    ensures BitsOf(Value(b), |b|) == b && Value(b) < Pow2(|b|)
  {
    if b != [] {
      BitsOfValue(b[1..]);
      assert Value(b) / 2 == Value(b[1..]) && (Value(b) % 2 == 1) == b[0];
      assert b == [b[0]] + b[1..];
    }
  }

  lemma {:induction false} ValueOfBits(n: nat, k: nat)
    requires n < Pow2(k)
    ensures Value(BitsOf(n, k)) == n
  {
    if k > 0 { ValueOfBits(n / 2, k - 1); }
  }

  lemma {:induction false} TopBit(n: nat, k: nat)
    requires 0 < k && n < Pow2(k)
    ensures BitsOf(n, k)[k - 1] <==> Pow2(k - 1) <= n
  {
    if k > 1 { TopBit(n / 2, k - 1); }
  }

  function Xor(x: Word, y: Word): Word
  {
    seq(32, i requires 0 <= i < 32 => x[i] != y[i])
  }

  /** `v >>> n`. */
  function ShiftRight(v: Word, n: nat): Word
    requires n <= 32
  {
    v[n..] + Zeros(n)
  }

  function Pad(b: Bits): Word
    requires |b| <= 32
  {
    b + Zeros(32 - |b|)
  }

  function ByteWord(b: nat): Word { Pad(BitsOf(b, 8)) }

  /** `v & 0xff`. */
  function LowByte(v: Word): Word { Pad(v[..8]) }

  const POLYNOMIAL: Word := BitsOf(0xedb88320, 32)
  const ONES: Word := Ones(32)

  // ----- Reference: one message bit at a time, least significant bit of each byte first -----

  function FeedBit(state: Word, bit: bool): Word
  {
    if state[0] != bit then Xor(POLYNOMIAL, ShiftRight(state, 1)) else ShiftRight(state, 1)
  }

  function Feed(state: Word, message: Bits): Word
    decreases |message|
  {
    if message == [] then state else Feed(FeedBit(state, message[0]), message[1..])
  }

  function MessageBits(bytes: seq<Byte>): Bits
  {
    if bytes == [] then [] else BitsOf(bytes[0], 8) + MessageBits(bytes[1..])
  }

  function Crc(bytes: seq<Byte>): Word { Xor(Feed(ONES, MessageBits(bytes)), ONES) }

  // ----- The register without input -----

  function Shift(v: Word): Word
  {
    if v[0] then Xor(POLYNOMIAL, ShiftRight(v, 1)) else ShiftRight(v, 1)
  }

  function Shifts(v: Word, n: nat): Word
    decreases n
  {
    if n == 0 then v else Shifts(Shift(v), n - 1)
  }

  lemma ShiftBit(v: Word, i: nat)
    requires i < 32
    ensures Shift(v)[i] <==> (v[0] && POLYNOMIAL[i]) != (i < 31 && v[i + 1])
  {}

  lemma ShiftLinear(x: Word, y: Word)
    ensures Shift(Xor(x, y)) == Xor(Shift(x), Shift(y))
  {
    forall i | 0 <= i < 32 ensures Shift(Xor(x, y))[i] == Xor(Shift(x), Shift(y))[i] {
      ShiftBit(x, i);
      ShiftBit(y, i);
      ShiftBit(Xor(x, y), i);
    }
  }

  lemma {:induction false} ShiftsLinear(x: Word, y: Word, n: nat)
    ensures Shifts(Xor(x, y), n) == Xor(Shifts(x, n), Shifts(y, n))
    decreases n
  {
    if n > 0 {
      ShiftLinear(x, y);
      ShiftsLinear(Shift(x), Shift(y), n - 1);
    }
  }

  lemma ShiftInput(s: Word, b: Bits)
    requires 0 < |b| <= 32
    ensures Shift(Xor(s, Pad(b))) == Xor(FeedBit(s, b[0]), Pad(b[1..]))
  {
    var x := Xor(s, Pad(b));
    forall i | 0 <= i < 32 ensures Shift(x)[i] == Xor(FeedBit(s, b[0]), Pad(b[1..]))[i] {
      ShiftBit(x, i);
    }
  }

  /** Feeding up to 32 bits is shifting the register with all of them added first. */
  lemma {:induction false} FeedIsShift(s: Word, b: Bits)
    requires |b| <= 32
    ensures Feed(s, b) == Shifts(Xor(s, Pad(b)), |b|)
    decreases |b|
  {
    if b == [] {
      assert Xor(s, Pad(b)) == s;
    } else {
      ShiftInput(s, b);
      FeedIsShift(FeedBit(s, b[0]), b[1..]);
    }
  }

  lemma {:induction false} ShiftsOverZeros(v: Word, n: nat)
    requires n <= 32 && forall i :: 0 <= i < n ==> !v[i]
    ensures Shifts(v, n) == ShiftRight(v, n)
    decreases n
  {
    if n > 0 {
      ShiftsOverZeros(ShiftRight(v, 1), n - 1);
      assert ShiftRight(ShiftRight(v, 1), n - 1) == ShiftRight(v, n);
    }
  }

  function HighBytes(v: Word): Word { Zeros(8) + v[8..] }

  lemma SplitByte(x: Word)
    ensures x == Xor(LowByte(x), HighBytes(x))
    ensures ShiftRight(HighBytes(x), 8) == ShiftRight(x, 8)
  {}

  lemma ByteBelow(s: Word, b: Bits)
    requires |b| == 8
    ensures ShiftRight(Xor(s, Pad(b)), 8) == ShiftRight(s, 8)
  {}

  /** One table lookup does the work of eight bits. */
  lemma TableStep(s: Word, b: Byte)
    ensures Feed(s, BitsOf(b, 8)) == Xor(Shifts(LowByte(Xor(s, ByteWord(b))), 8), ShiftRight(s, 8))
  {
    var x := Xor(s, ByteWord(b));
    FeedIsShift(s, BitsOf(b, 8));
    SplitByte(x);
    ShiftsLinear(LowByte(x), HighBytes(x), 8);
    ShiftsOverZeros(HighBytes(x), 8);
    ByteBelow(s, BitsOf(b, 8));
  }

  lemma {:induction false} FeedConcat(s: Word, a: Bits, b: Bits)
    ensures Feed(s, a + b) == Feed(Feed(s, a), b)
    decreases |a|
  {
    if a == [] {
      assert a + b == b;
    } else {
      assert (a + b)[1..] == a[1..] + b;
      FeedConcat(FeedBit(s, a[0]), a[1..], b);
    }
  }

  // ----- The writer's code -----

  ghost predicate IsTable(table: seq<Word>)
  {
    |table| == 256 && forall i :: 0 <= i < 256 ==> table[i] == Shifts(ByteWord(i), 8)
  }

  method TableEntry(index: Word, bits: nat) returns (value: Word)
    ensures value == Shifts(index, bits)
  {
    value := index;
    for bit := 0 to bits
      invariant Shifts(value, bits - bit) == Shifts(index, bits)
    {
      value := if value[0] then Xor(POLYNOMIAL, ShiftRight(value, 1)) else ShiftRight(value, 1);
    }
  }

  method CrcTable() returns (table: seq<Word>)
    ensures IsTable(table)
  {
    table := [];
    for index := 0 to 256
      invariant |table| == index && forall i :: 0 <= i < index ==> table[i] == Shifts(ByteWord(i), 8)
    {
      var value := TableEntry(ByteWord(index), 8);
      table := table + [value];
    }
  }

  lemma ByteIndex(x: Word)
    ensures Value(LowByte(x)[..8]) < 256 && ByteWord(Value(LowByte(x)[..8])) == LowByte(x)
  {
    assert LowByte(x)[..8] == x[..8];
    BitsOfValue(x[..8]);
    assert Pow2(8) == 256;
  }

  method ComputeCrc(table: seq<Word>, bytes: seq<Byte>) returns (crc: Word)
    requires IsTable(table)
    ensures crc == Crc(bytes)
  {
    var value := ONES;
    for i := 0 to |bytes|
      invariant Feed(value, MessageBits(bytes[i..])) == Feed(ONES, MessageBits(bytes))
    {
      var low := LowByte(Xor(value, ByteWord(bytes[i])));
      ByteIndex(Xor(value, ByteWord(bytes[i])));
      TableStep(value, bytes[i]);
      assert bytes[i..][1..] == bytes[i + 1..];
      FeedConcat(value, BitsOf(bytes[i], 8), MessageBits(bytes[i + 1..]));
      value := Xor(table[Value(low[..8])], ShiftRight(value, 8));
    }
    crc := Xor(value, ONES);
  }

  // ----- Error detection -----

  lemma Pow2Byte(k: nat)
    ensures Pow2(k + 8) == 256 * Pow2(k)
  {
    assert Pow2(k + 8) == 2 * Pow2(k + 7) == 4 * Pow2(k + 6) == 8 * Pow2(k + 5) == 16 * Pow2(k + 4);
    assert Pow2(k + 4) == 2 * Pow2(k + 3) == 4 * Pow2(k + 2) == 8 * Pow2(k + 1) == 16 * Pow2(k);
  }

  lemma Pow2Word()
    ensures Pow2(31) == 0x80000000 && Pow2(32) == 0x100000000
  {
    Pow2Byte(0);
    Pow2Byte(8);
    Pow2Byte(16);
    Pow2Byte(24);
    assert Pow2(32) == 2 * Pow2(31);
  }

  lemma PolynomialTop()
    ensures POLYNOMIAL[31]
  {
    Pow2Word();
    TopBit(0xedb88320, 32);
  }

  lemma XorCancel(x: Word, y: Word, z: Word)
    requires Xor(x, z) == Xor(y, z)
    ensures x == y
  {
    forall i | 0 <= i < 32 ensures x[i] == y[i] {
      assert Xor(x, z)[i] == Xor(y, z)[i];
    }
  }

  lemma XorCommutes(x: Word, y: Word)
    ensures Xor(x, y) == Xor(y, x)
  {}

  lemma PadInjective(a: Bits, b: Bits)
    requires |a| == |b| <= 32 && Pad(a) == Pad(b)
    ensures a == b
  {
    assert a == Pad(a)[..|a|] && b == Pad(b)[..|b|];
  }

  lemma ShiftInjective(x: Word, y: Word)
    requires Shift(x) == Shift(y)
    ensures x == y
  {
    PolynomialTop();
    ShiftBit(x, 31);
    ShiftBit(y, 31);
    forall i | 0 < i < 32 ensures x[i] == y[i] {
      ShiftBit(x, i - 1);
      ShiftBit(y, i - 1);
    }
  }

  lemma {:induction false} ShiftsInjective(x: Word, y: Word, n: nat)
    requires Shifts(x, n) == Shifts(y, n)
    ensures x == y
    decreases n
  {
    if n > 0 {
      ShiftsInjective(Shift(x), Shift(y), n - 1);
      ShiftInjective(x, y);
    }
  }

  /** A difference in the register is never lost. */
  lemma {:induction false} FeedInjective(s: Word, t: Word, a: Bits)
    requires Feed(s, a) == Feed(t, a)
    ensures s == t
    decreases |a|
  {
    if a != [] {
      FeedInjective(FeedBit(s, a[0]), FeedBit(t, a[0]), a[1..]);
      FeedIsShift(s, a[..1]);
      FeedIsShift(t, a[..1]);
      ShiftsInjective(Xor(s, Pad(a[..1])), Xor(t, Pad(a[..1])), 1);
      XorCancel(s, t, Pad(a[..1]));
    }
  }

  /** Bit strings that differ, but only inside 32 consecutive bits, leave different registers. */
  lemma BurstDetected(s: Word, before: Bits, a: Bits, b: Bits, after: Bits)
    requires |a| == |b| <= 32 && a != b
    ensures Feed(s, before + a + after) != Feed(s, before + b + after)
  {
    var t := Feed(s, before);
    FeedConcat(s, before + a, after);
    FeedConcat(s, before + b, after);
    FeedConcat(s, before, a);
    FeedConcat(s, before, b);
    if Feed(s, before + a + after) == Feed(s, before + b + after) {
      FeedInjective(Feed(t, a), Feed(t, b), after);
      FeedIsShift(t, a);
      FeedIsShift(t, b);
      ShiftsInjective(Xor(t, Pad(a)), Xor(t, Pad(b)), |a|);
      XorCommutes(t, Pad(a));
      XorCommutes(t, Pad(b));
      XorCancel(Pad(a), Pad(b), t);
      PadInjective(a, b);
    }
  }

  lemma {:induction false} MessageConcat(a: seq<Byte>, b: seq<Byte>)
    ensures MessageBits(a + b) == MessageBits(a) + MessageBits(b)
  {
    if a == [] {
      assert a + b == b;
    } else {
      assert (a + b)[1..] == a[1..] + b;
      MessageConcat(a[1..], b);
    }
  }

  lemma ByteBitsInjective(x: Byte, y: Byte)
    requires BitsOf(x, 8) == BitsOf(y, 8)
    ensures x == y
  {
    assert Pow2(8) == 256;
    ValueOfBits(x, 8);
    ValueOfBits(y, 8);
  }

  /** Replacing one byte of a message always changes its checksum. */
  lemma ByteChangeDetected(message: seq<Byte>, i: nat, b: Byte)
    requires i < |message| && message[i] != b
    ensures Crc(message[i := b]) != Crc(message)
  {
    var before, after := message[..i], message[i + 1..];
    assert message == before + [message[i]] + after && message[i := b] == before + [b] + after;
    forall c: Byte
      ensures MessageBits(before + [c] + after) == MessageBits(before) + BitsOf(c, 8) + MessageBits(after)
    {
      MessageConcat(before + [c], after);
      MessageConcat(before, [c]);
      assert MessageBits([c]) == BitsOf(c, 8) + MessageBits([]);
    }
    if BitsOf(message[i], 8) == BitsOf(b, 8) { ByteBitsInjective(message[i], b); }
    BurstDetected(ONES, MessageBits(before), BitsOf(message[i], 8), BitsOf(b, 8), MessageBits(after));
    if Crc(message[i := b]) == Crc(message) {
      XorCancel(Feed(ONES, MessageBits(message)), Feed(ONES, MessageBits(message[i := b])), ONES);
    }
  }

  lemma CrcInRange(bytes: seq<Byte>)
    ensures Value(Crc(bytes)) < 0x100000000
  {
    BitsOfValue(Crc(bytes));
    Pow2Word();
  }

  // ----- The published function -----

  /** The exponents below 32 of the generator polynomial of ISO 3309. */
  const GENERATOR: set<nat> := {26, 23, 22, 16, 12, 11, 10, 8, 7, 5, 4, 2, 1, 0}

  lemma Halves(low: nat, q: nat)
    ensures (low + 2 * q) / 2 == low / 2 + q && (low + 2 * q) % 2 == low % 2
  {
  }

  lemma LowBit(n: nat, k: nat)
    requires 0 < k
    ensures BitsOf(n, k) == [n % 2 == 1] + BitsOf(n / 2, k - 1)
  {
  }

  lemma BitJoins(low: nat, q: nat, j: nat, k: nat, high: Bits)
    requires 0 < j && BitsOf(low / 2 + q, j - 1 + k) == BitsOf(low / 2, j - 1) + high
    ensures BitsOf(low + 2 * q, j + k) == BitsOf(low, j) + high
  {
    hide BitsOf;
    Halves(low, q);
    LowBit(low + 2 * q, j + k);
    LowBit(low, j);
  }

  lemma NoLowBits(n: nat, k: nat)
    ensures BitsOf(0, 0) == [] && BitsOf(n, 0 + k) == BitsOf(0, 0) + BitsOf(n, k)
  {
  }

  /** A byte below a number puts its bits below the number's. */
  lemma ByteJoins(low: Byte, high: nat, k: nat)
    ensures BitsOf(low + 256 * high, 8 + k) == BitsOf(low, 8) + BitsOf(high, k)
  {
    hide BitsOf;
    var h := BitsOf(high, k);
    assert low / 2 / 2 / 2 / 2 / 2 / 2 / 2 / 2 == 0;
    NoLowBits(high, k);
    BitJoins(low / 2 / 2 / 2 / 2 / 2 / 2 / 2, high, 1, k, h);
    BitJoins(low / 2 / 2 / 2 / 2 / 2 / 2, 2 * high, 2, k, h);
    BitJoins(low / 2 / 2 / 2 / 2 / 2, 4 * high, 3, k, h);
    BitJoins(low / 2 / 2 / 2 / 2, 8 * high, 4, k, h);
    BitJoins(low / 2 / 2 / 2, 16 * high, 5, k, h);
    BitJoins(low / 2 / 2, 32 * high, 6, k, h);
    BitJoins(low / 2, 64 * high, 7, k, h);
    BitJoins(low, 128 * high, 8, k, h);
  }

  lemma PolynomialBytes()
    ensures POLYNOMIAL == BitsOf(0x20, 8) + (BitsOf(0x83, 8) + (BitsOf(0xb8, 8) + BitsOf(0xed, 8)))
  {
    hide BitsOf;
    ByteJoins(0xb8, 0xed, 8);
    ByteJoins(0x83, 0xedb8, 16);
    ByteJoins(0x20, 0xedb883, 24);
  }

  lemma Bits20()
    ensures BitsOf(0x20, 8) == [false, false, false, false, false, true, false, false]
  {
  }

  lemma Bits83()
    ensures BitsOf(0x83, 8) == [true, true, false, false, false, false, false, true]
  {
  }

  lemma BitsB8()
    ensures BitsOf(0xb8, 8) == [false, false, false, true, true, true, false, true]
  {
  }

  lemma BitsEd()
    ensures BitsOf(0xed, 8) == [true, false, true, true, false, true, true, true]
  {
  }

  /** The register's feedback is that polynomial, the coefficient of the highest power first. */
  lemma PolynomialIsGenerator(i: nat)
    requires i < 32
    ensures POLYNOMIAL[i] <==> 31 - i in GENERATOR
  {
    hide BitsOf;
    PolynomialBytes();
    Bits20();
    Bits83();
    BitsB8();
    BitsEd();
  }

  lemma FourBytes(bytes: seq<Byte>)
    requires |bytes| == 4
    ensures MessageBits(bytes)
         == BitsOf(bytes[0], 8) + (BitsOf(bytes[1], 8) + (BitsOf(bytes[2], 8) + BitsOf(bytes[3], 8)))
  {
    hide BitsOf;
    var b, c, d := bytes[1..], bytes[2..], bytes[3..];
    assert b[1..] == c && c[1..] == d && d[1..] == [];
    assert b[0] == bytes[1] && c[0] == bytes[2] && d[0] == bytes[3];
    assert MessageBits(d) == BitsOf(bytes[3], 8) + MessageBits([]) == BitsOf(bytes[3], 8);
    assert MessageBits(c) == BitsOf(bytes[2], 8) + MessageBits(d);
    assert MessageBits(b) == BitsOf(bytes[1], 8) + MessageBits(c);
  }

  lemma ZeroByte()
    ensures BitsOf(0, 8) == Zeros(8)
  {
  }

  /** The checksum of a message with its own checksum behind it is that of four zero bytes, whatever the message is. */
  lemma Residue(message: seq<Byte>, checksum: seq<Byte>)
    requires |checksum| == 4 && MessageBits(checksum) == Crc(message)
    ensures Crc(message + checksum) == Crc([0, 0, 0, 0])
  {
    hide Feed, MessageBits, BitsOf, Shifts;
    var s, zeros := Feed(ONES, MessageBits(message)), MessageBits([0, 0, 0, 0]);
    MessageConcat(message, checksum);
    FeedConcat(ONES, MessageBits(message), MessageBits(checksum));
    FeedIsShift(s, Xor(s, ONES));
    assert Xor(s, Pad(Xor(s, ONES))) == ONES;
    FourBytes([0, 0, 0, 0]);
    ZeroByte();
    assert zeros == Zeros(32);
    FeedIsShift(ONES, Zeros(32));
    assert Xor(ONES, Pad(Zeros(32))) == ONES;
  }

  /** Without a message the checksum is zero, and of four bytes with all their bits set it has all its bits set. */
  lemma KnownChecksums()
    ensures Crc([]) == Zeros(32) && Crc([255, 255, 255, 255]) == ONES
  {
    hide Shifts, Feed, MessageBits;
    NoMessage();
    AllSet();
    assert Xor(ONES, ONES) == Zeros(32) && Xor(Zeros(32), ONES) == ONES && Pad(ONES) == ONES;
    FeedIsShift(ONES, ONES);
    ShiftsOverZeros(Zeros(32), 32);
    assert ShiftRight(Zeros(32), 32) == Zeros(32);
  }

  lemma AllSet()
    ensures MessageBits([255, 255, 255, 255]) == ONES
  {
    hide BitsOf, MessageBits;
    FourBytes([255, 255, 255, 255]);
    OnesByte();
  }

  lemma NoMessage()
    ensures Feed(ONES, MessageBits([])) == ONES
  {
  }

  lemma OnesByte()
    ensures BitsOf(255, 8) == Ones(8)
  {
  }
}
