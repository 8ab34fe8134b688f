/**
 The two ways in which the system turns a string into comparable code units. JavaScript compares
 UTF-16 units; Rust and SQLite compare UTF-8 bytes. A Dafny `char` is a Unicode scalar value, so
 strings with lone surrogates are not represented.
 */
module Unicode {
  import opened Wrappers
  import opened Ordering

  datatype Encoding = Utf8 | Utf16

  /** The code of an ASCII digit, in either encoding. */
  predicate IsDigit(u: nat) { 48 <= u <= 57 }

  function Units(e: Encoding, c: char): (u: Key)
    ensures u != []
    ensures e.Utf8? ==> forall i :: 0 <= i < |u| ==> u[i] < 256
  {
    var n := c as int;
    match e
    case Utf8 =>
      if n < 0x80 then [n]
      else if n < 0x800 then [0xC0 + n / 64, 0x80 + n % 64]
      else if n < 0x10000 then [0xE0 + n / 4096, 0x80 + n / 64 % 64, 0x80 + n % 64]
      else [0xF0 + n / 262144, 0x80 + n / 4096 % 64, 0x80 + n / 64 % 64, 0x80 + n % 64]
    case Utf16 =>
      if n < 0x10000 then [n] else [0xD800 + (n - 0x10000) / 1024, 0xDC00 + (n - 0x10000) % 1024]
  }

  function Encode(e: Encoding, s: string): Key
  {
    if s == [] then [] else Units(e, s[0]) + Encode(e, s[1..])
  }

  /** The scalar values of a string: the order both encodings are usually taken to have. */
  function Points(s: string): Key
  {
    if s == [] then [] else [s[0] as int] + Points(s[1..])
  }

  /** Two unit sequences that differ at a position both of them have. */
  predicate Diverges(x: Key, y: Key)
  {
    x != [] && y != [] && (x[0] < y[0] || (x[0] == y[0] && Diverges(x[1..], y[1..])))
  }

  lemma {:induction false} DivergesLess(x: Key, y: Key, p: Key, q: Key)
    requires Diverges(x, y)
    ensures Less(x + p, y + q)
  {
    if x[0] == y[0] {
      assert (x + p)[1..] == x[1..] + p && (y + q)[1..] == y[1..] + q;
      DivergesLess(x[1..], y[1..], p, q);
    }
  }

  predicate Supplementary(c: char) { 0x10000 <= c as int }

  /** The scalars above the surrogate block: UTF-16 orders these after supplementary characters. */
  predicate AboveSurrogates(c: char) { 0xE000 <= c as int < 0x10000 }

  ghost predicate Mixed(cs: set<char>)
  {
    (exists c :: c in cs && Supplementary(c)) && (exists d :: d in cs && AboveSurrogates(d))
  }

  ghost predicate Over(s: string, cs: set<char>) { forall c :: c in s ==> c in cs }

  lemma {:induction false} DivergesAt(x: Key, y: Key, i: nat)
    requires i < |x| && i < |y| && x[..i] == y[..i] && x[i] < y[i]
    ensures Diverges(x, y)
  {
    if i > 0 {
      assert x[0] == x[..i][0] == y[..i][0] == y[0];
      assert x[1..][..i - 1] == x[..i][1..] == y[..i][1..] == y[1..][..i - 1];
      DivergesAt(x[1..], y[1..], i - 1);
    }
  }

  /** The base-64 digits of a scalar value. */
  lemma Digits(n: nat)
    requires n < 0x110000
    ensures n == n / 4096 * 4096 + n / 64 % 64 * 64 + n % 64
    ensures n == n / 64 * 64 + n % 64
    ensures n / 4096 == n / 262144 * 64 + n / 4096 % 64
  {}

  /** Smaller scalars have smaller units, except that UTF-16 puts supplementary ones first. */
  lemma UnitsDiverge(e: Encoding, c: char, d: char)
    requires c < d
    ensures if e.Utf16? && AboveSurrogates(c) && Supplementary(d)
            then Diverges(Units(e, d), Units(e, c)) else Diverges(Units(e, c), Units(e, d))
  {
    if e.Utf16? { Utf16Diverge(c, d); } else { Utf8Diverge(c, d); }
  }

  lemma Utf16Diverge(c: char, d: char)
    requires c < d
    ensures if AboveSurrogates(c) && Supplementary(d)
            then Diverges(Units(Utf16, d), Units(Utf16, c)) else Diverges(Units(Utf16, c), Units(Utf16, d))
  {
    var x, y := Units(Utf16, c), Units(Utf16, d);
    if Supplementary(c) && x[0] == y[0] {
      assert x[..1] == y[..1];
      DivergesAt(x, y, 1);
    }
  }

  lemma Utf8Diverge(c: char, d: char)
    requires c < d
    ensures Diverges(Units(Utf8, c), Units(Utf8, d))
  {
    var x, y := Units(Utf8, c), Units(Utf8, d);
    var n, m := c as int, d as int;
    Digits(n);
    Digits(m);
    if x[0] < y[0] {
    } else if |x| == |y| == 2 {
      assert x[..1] == y[..1];
      DivergesAt(x, y, 1);
    } else if |x| == |y| == 3 {
      NarrowDiverge(c, d);
    } else {
      WideDiverge(c, d);
    }
  }

  lemma NarrowDiverge(c: char, d: char)
    requires 0x800 <= c as int < d as int < 0x10000
    ensures Diverges(Units(Utf8, c), Units(Utf8, d))
  {
    var x, y := Units(Utf8, c), Units(Utf8, d);
    Digits(c as int);
    Digits(d as int);
    if x[0] == y[0] {
      if x[1] < y[1] {
        assert x[..1] == y[..1];
        DivergesAt(x, y, 1);
      } else {
        assert x[..2] == y[..2];
        DivergesAt(x, y, 2);
      }
    }
  }

  lemma WideDiverge(c: char, d: char)
    requires 0x10000 <= c as int < d as int
    ensures Diverges(Units(Utf8, c), Units(Utf8, d))
  {
    var x, y := Units(Utf8, c), Units(Utf8, d);
    Digits(c as int);
    Digits(d as int);
    if x[0] == y[0] {
      if x[1] < y[1] {
        assert x[..1] == y[..1];
        DivergesAt(x, y, 1);
      } else if x[2] < y[2] {
        assert x[..2] == y[..2];
        DivergesAt(x, y, 2);
      } else {
        assert x[..3] == y[..3];
        DivergesAt(x, y, 3);
      }
    }
  }

  /** UTF-8 order is scalar order; UTF-16 order is too, unless both problem ranges occur. */
  lemma {:induction false} EncodeOrder(e: Encoding, s: string, t: string, cs: set<char>)
    requires Over(s, cs) && Over(t, cs)
    requires e.Utf8? || !Mixed(cs)
    ensures Less(Encode(e, s), Encode(e, t)) <==> Less(Points(s), Points(t))
  {
    if s != [] && t != [] {
      var x, y := Units(e, s[0]), Units(e, t[0]);
      assert s[0] in cs && t[0] in cs;
      if s[0] == t[0] {
        EncodeOrder(e, s[1..], t[1..], cs);
        LessCommonPrefix(x, Encode(e, s[1..]), Encode(e, t[1..]));
      } else if s[0] < t[0] {
        UnitsDiverge(e, s[0], t[0]);
        DivergesLess(x, y, Encode(e, s[1..]), Encode(e, t[1..]));
      } else {
        UnitsDiverge(e, t[0], s[0]);
        DivergesLess(y, x, Encode(e, t[1..]), Encode(e, s[1..]));
        LessAsymmetric(Encode(e, t), Encode(e, s));
      }
    }
  }

  /** Either encoding loses nothing. */
  lemma {:induction false} EncodeInjective(e: Encoding, s: string, t: string)
    requires Encode(e, s) == Encode(e, t)
    ensures s == t
  {
    if s != [] && t != [] {
      var x, y := Units(e, s[0]), Units(e, t[0]);
      var p, q := Encode(e, s[1..]), Encode(e, t[1..]);
      if s[0] == t[0] {
        assert p == (x + p)[|x|..] == (y + q)[|y|..] == q;
        EncodeInjective(e, s[1..], t[1..]);
        assert s == [s[0]] + s[1..] && t == [t[0]] + t[1..];
      } else {
        UnitsDiverge(e, if s[0] < t[0] then s[0] else t[0], if s[0] < t[0] then t[0] else s[0]);
        if Diverges(x, y) { DivergesLess(x, y, p, q); } else { DivergesLess(y, x, q, p); }
        LessIrreflexive(x + p);
      }
    }
  }

  function Scalar(u: Key): int
    requires 1 <= |u| <= 4
  {
    match |u|
    case 1 => u[0]
    case 2 => (u[0] as int - 0xC0) * 64 + (u[1] as int - 0x80)
    case 3 => (u[0] as int - 0xE0) * 4096 + (u[1] as int - 0x80) * 64 + (u[2] as int - 0x80)
    case _ => (u[0] as int - 0xF0) * 262144 + (u[1] as int - 0x80) * 4096
              + (u[2] as int - 0x80) * 64 + (u[3] as int - 0x80)
  }

  lemma ScalarOfUnits(c: char)
    ensures Scalar(Units(Utf8, c)) == c as int
  {
    Digits(c as int);
  }

  /** In UTF-16 a supplementary scalar is a high and a low surrogate with ten bits each, and any other is one unit. */
  lemma SurrogatesOfUnits(c: char)
    ensures var (n, u) := (c as int, Units(Utf16, c));
            if n < 0x10000 then u == [n]
            else
              |u| == 2 && 0xD800 <= u[0] < 0xDC00 <= u[1] < 0xE000
              && n == 0x10000 + 0x400 * (u[0] as int - 0xD800) + (u[1] as int - 0xDC00)
  {
  }

  /** A UTF-8 reader, for formats that store names as bytes. */
  function DecodeUtf8(b: Key): Option<string>
  {
    if b == [] then Some("") else
      var w := if b[0] < 0x80 then 1 else if b[0] < 0xE0 then 2 else if b[0] < 0xF0 then 3 else 4;
      if |b| < w then None else
        var n: int := Scalar(b[..w]);
        if !(0 <= n < 0xD800 || 0xE000 <= n < 0x110000) then None else
          match DecodeUtf8(b[w..])
          case Some(rest) => Some([n as char] + rest)
          case None => None
  }

  /** The first unit tells how many there are. */
  lemma UnitsWidth(c: char)
    ensures var u := Units(Utf8, c);
            1 <= |u| <= 4 && |u| == if u[0] < 0x80 then 1 else if u[0] < 0xE0 then 2 else if u[0] < 0xF0 then 3 else 4
  {
  }

  lemma DecodeNext(c: char, rest: Key)
    requires DecodeUtf8(rest).Some?
    ensures DecodeUtf8(Units(Utf8, c) + rest) == Some([c] + DecodeUtf8(rest).value)
  {
    hide Units, Scalar;
    UnitsWidth(c);
    ScalarOfUnits(c);
    var u := Units(Utf8, c);
    var b := u + rest;
    assert b[..|u|] == u && b[|u|..] == rest && b[0] == u[0];
  }

  lemma {:induction false} DecodeEncode(s: string)
    ensures DecodeUtf8(Encode(Utf8, s)) == Some(s)
  {
    hide Units;
    if s != [] {
      DecodeEncode(s[1..]);
      DecodeNext(s[0], Encode(Utf8, s[1..]));
      assert s == [s[0]] + s[1..];
    }
  }

  lemma {:induction false} Utf8Bytes(s: string)
    ensures forall i :: 0 <= i < |Encode(Utf8, s)| ==> Encode(Utf8, s)[i] < 256
  {
    if s != [] { Utf8Bytes(s[1..]); }
  }
}
