/**
 A reader of JSON text, written from the grammar of RFC 8259 and knowing nothing of the serialisers. It reads texts
 without insignificant whitespace whose member names ascend, with integers for numbers and hexadecimal digits in lower
 case; any escape may be used.
 */
module JsonReader {
  import opened Wrappers
  import opened Ordering
  import opened Unicode
  import opened CanonicalJson

  // ----- Strings: section 7 of RFC 8259 -----

  function HexValue(c: char): (r: Option<nat>)
    ensures r.Some? ==> r.value < 16
  {
    if '0' <= c <= '9' then Some((c - '0') as nat)
    else if 'a' <= c <= 'f' then Some(10 + (c - 'a') as nat)
    else None
  }

  /** `4HEXDIG` at a position of a text. */
  function ReadHex(t: string, i: nat): (r: Option<nat>)
    ensures r.Some? ==> i + 4 <= |t| && r.value < 0x10000
  {
    if |t| < i + 4 then None
    else
      match (HexValue(t[i]), HexValue(t[i + 1]), HexValue(t[i + 2]), HexValue(t[i + 3]))
      case (Some(a), Some(b), Some(c), Some(d)) => Some(4096 * a + 256 * b + 16 * c + d)
      case _ => None
  }

  /** A character after `\u`; one outside the Basic Multilingual Plane is written as a surrogate pair. */
  function ReadUnit(t: string): (r: Option<(char, string)>)
    requires 2 <= |t|
    ensures r.Some? ==> |r.value.1| + 6 <= |t|
  {
    match ReadHex(t, 2)
    case None => None
    case Some(n) =>
      if n < 0xD800 || 0xE000 <= n then Some((n as char, t[6..]))
      else if 0xDC00 <= n || |t| < 8 || t[6] != '\\' || t[7] != 'u' then None
      else
        match ReadHex(t, 8)
        case None => None
        case Some(m) =>
          if 0xDC00 <= m < 0xE000 then Some(((0x10000 + (n - 0xD800) * 0x400 + (m - 0xDC00)) as char, t[12..]))
          else None
  }

  function ReadChar(t: string): (r: Option<(char, string)>)
    ensures r.Some? ==> |r.value.1| < |t|
  {
    if t == "" || t[0] < ' ' || t[0] == '"' then None
    else if t[0] != '\\' then Some((t[0], t[1..]))
    else if |t| < 2 then None
    else
      match t[1]
      case '"' => Some(('"', t[2..]))
      case '\\' => Some(('\\', t[2..]))
      case '/' => Some(('/', t[2..]))
      case 'b' => Some(('\U{0008}', t[2..]))
      case 'f' => Some(('\U{000C}', t[2..]))
      case 'n' => Some(('\U{000A}', t[2..]))
      case 'r' => Some(('\U{000D}', t[2..]))
      case 't' => Some(('\U{0009}', t[2..]))
      case 'u' => ReadUnit(t)
      case _ => None
  }

  /** The rest of a string, up to its closing quote. */
  function ReadChars(t: string): (r: Option<(string, string)>)
    ensures r.Some? ==> |r.value.1| < |t|
    decreases |t|
  {
    if t != "" && t[0] == '"' then Some(("", t[1..]))
    else
      match ReadChar(t)
      case None => None
      case Some((c, rest)) =>
        match ReadChars(rest)
        case None => None
        case Some((cs, after)) => Some(([c] + cs, after))
  }

  // ----- Numbers: section 6 -----

  predicate DigitFirst(t: string) { t != "" && '0' <= t[0] <= '9' }

  /** `*DIGIT`, after digits that stand for `n`. */
  function ReadDigits(t: string, n: nat): (r: (nat, string))
    ensures |r.1| <= |t|
    decreases |t|
  {
    if DigitFirst(t) then ReadDigits(t[1..], 10 * n + (t[0] - '0') as nat) else (n, t)
  }

  /** `int`: a zero, or digits that do not begin with one. */
  function ReadNatural(t: string): (r: Option<(nat, string)>)
    ensures r.Some? ==> |r.value.1| < |t|
  {
    if !DigitFirst(t) then None
    else if t[0] == '0' then Some((0, t[1..]))
    else Some(ReadDigits(t[1..], (t[0] - '0') as nat))
  }

  function ReadInteger(t: string): (r: Option<(int, string)>)
    ensures r.Some? ==> |r.value.1| < |t|
  {
    if t != "" && t[0] == '-' then
      match ReadNatural(t[1..])
      case None => None
      case Some((n, rest)) =>
        var z: int := n;
        Some((-z, rest))
    else
      match ReadNatural(t)
      case None => None
      case Some((n, rest)) => Some((n, rest))
  }

  // ----- Values: sections 3 to 5 -----

  type Member = (string, Json)

  function MemberKey(e: Encoding): Member -> Key { (m: Member) => Encode(e, m.0) }

  function Fields(ms: seq<Member>): map<string, Json>
  {
    if ms == [] then map[] else Fields(ms[..|ms| - 1])[ms[|ms| - 1].0 := ms[|ms| - 1].1]
  }

  ghost function ReadValue(e: Encoding, t: string): (r: Option<(Json, string)>)
    ensures r.Some? ==> |r.value.1| < |t|
    decreases |t|, 1
  {
    if t == "" then None
    else if t[0] == '"' then
      match ReadChars(t[1..])
      case None => None
      case Some((s, rest)) => Some((Str(s), rest))
    else if t[0] == '[' then
      if 1 < |t| && t[1] == ']' then Some((Arr([]), t[2..]))
      else
        match ReadItems(e, t[1..])
        case None => None
        case Some((vs, rest)) => Some((Arr(vs), rest))
    else if t[0] == '{' then
      if 1 < |t| && t[1] == '}' then Some((Obj(map[]), t[2..]))
      else
        match ReadMembers(e, t[1..])
        case None => None
        case Some((ms, rest)) => if StrictlySorted(ms, MemberKey(e)) then Some((Obj(Fields(ms)), rest)) else None
    else if "null" <= t then Some((Null, t[4..]))
    else if "true" <= t then Some((Bool(true), t[4..]))
    else if "false" <= t then Some((Bool(false), t[5..]))
    else
      match ReadInteger(t)
      case None => None
      case Some((n, rest)) => Some((Num(n), rest))
  }

  /** One or more items, up to the closing bracket. */
  ghost function ReadItems(e: Encoding, t: string): (r: Option<(seq<Json>, string)>)
    ensures r.Some? ==> r.value.0 != [] && |r.value.1| < |t|
    decreases |t|, 2
  {
    match ReadValue(e, t)
    case None => None
    case Some((v, rest)) =>
      if rest == "" then None
      else if rest[0] == ']' then Some(([v], rest[1..]))
      else if rest[0] != ',' then None
      else
        match ReadItems(e, rest[1..])
        case None => None
        case Some((vs, after)) => Some(([v] + vs, after))
  }

  /** A member: a string, a colon and a value. */
  ghost function ReadMember(e: Encoding, t: string): (r: Option<(Member, string)>)
    ensures r.Some? ==> |r.value.1| < |t|
    decreases |t|, 2
  {
    if t == "" || t[0] != '"' then None
    else
      match ReadChars(t[1..])
      case None => None
      case Some((k, rest)) =>
        if rest == "" || rest[0] != ':' then None
        else
          match ReadValue(e, rest[1..])
          case None => None
          case Some((v, after)) => Some(((k, v), after))
  }

  /** One or more members, up to the closing brace. */
  ghost function ReadMembers(e: Encoding, t: string): (r: Option<(seq<Member>, string)>)
    ensures r.Some? ==> r.value.0 != [] && |r.value.1| < |t|
    decreases |t|, 3
  {
    match ReadMember(e, t)
    case None => None
    case Some((m, rest)) =>
      if rest == "" then None
      else if rest[0] == '}' then Some(([m], rest[1..]))
      else if rest[0] != ',' then None
      else
        match ReadMembers(e, rest[1..])
        case None => None
        case Some((ms, after)) => Some(([m] + ms, after))
  }

  /** A whole text. */
  ghost function Parse(e: Encoding, t: string): Option<Json>
  {
    match ReadValue(e, t)
    case Some((v, "")) => Some(v)
    case _ => None
  }

  // ----- Every canonical text is read back -----

  lemma HexRead(n: nat)
    requires n < 16
    ensures HexValue(HexDigit(n)) == Some(n)
  {
  }

  lemma EscapeRead(c: char, s: string)
    ensures Escape(c) + s != "" && (Escape(c) + s)[0] != '"' && ReadChar(Escape(c) + s) == Some((c, s))
  {
    var x := Escape(c);
    var t := x + s;
    assert t[|x|..] == s && forall i :: 0 <= i < |x| ==> t[i] == x[i];
    if |x| == 6 {
      HexRead(c as int / 16);
      HexRead(c as int % 16);
      assert HexValue('0') == Some(0);
    }
  }

  lemma {:induction false} QuoteRead(k: string, s: string)
    ensures ReadChars(EscapeAll(k) + ("\"" + s)) == Some((k, s))
  {
    hide Escape, ReadChar;
    EscapeStep(k, s);
    if k == "" {
      assert ("\"" + s)[1..] == s;
    } else {
      EscapeRead(k[0], EscapeAll(k[1..]) + ("\"" + s));
      QuoteRead(k[1..], s);
      assert k == [k[0]] + k[1..];
    }
  }

  lemma DigitStep(d: nat, s: string, n: nat)
    requires d < 10
    ensures DigitFirst([Digit(d)] + s) && ReadDigits([Digit(d)] + s, n) == ReadDigits(s, 10 * n + d)
  {
    assert ([Digit(d)] + s)[1..] == s;
  }

  /** Reading the decimal digits of `n`, after its first one. */
  lemma {:induction false} DecimalRead(n: nat, s: string)
    requires 0 < n && !DigitFirst(s)
    ensures DigitFirst(Decimal(n) + s) && (Decimal(n) + s)[0] != '0'
    ensures ReadDigits((Decimal(n) + s)[1..], ((Decimal(n) + s)[0] - '0') as nat) == (n, s)
  {
    DecimalReadOn(n, s);
  }

  lemma {:induction false} DecimalReadOn(n: nat, s: string)
    requires 0 < n
    ensures DigitFirst(Decimal(n) + s) && (Decimal(n) + s)[0] != '0'
    ensures ReadDigits((Decimal(n) + s)[1..], ((Decimal(n) + s)[0] - '0') as nat) == ReadDigits(s, n)
  {
    hide ReadDigits;
    if n < 10 {
      assert Decimal(n) == [Digit(n)];
      assert ([Digit(n)] + s)[1..] == s;
    } else {
      DecimalReadOn(n / 10, [Digit(n % 10)] + s);
      assert Decimal(n) + s == Decimal(n / 10) + ([Digit(n % 10)] + s);
      DigitStep(n % 10, s, n / 10);
    }
  }

  lemma NaturalRead(n: nat, s: string)
    requires !DigitFirst(s)
    ensures ReadNatural(Decimal(n) + s) == Some((n, s)) && DigitFirst(Decimal(n) + s)
  {
    if n == 0 {
      assert Decimal(0) == "0" && ("0" + s)[1..] == s;
    } else {
      DecimalRead(n, s);
    }
  }

  lemma IntegerRead(n: int, s: string)
    requires !DigitFirst(s)
    ensures ReadInteger(Integer(n) + s) == Some((n, s))
    ensures Integer(n) + s != "" && ((Integer(n) + s)[0] == '-' || DigitFirst(Integer(n) + s))
  {
    hide ReadNatural, Decimal;
    if n < 0 {
      assert (Integer(n) + s)[1..] == Decimal(-n) + s;
      NaturalRead(-n, s);
    } else {
      NaturalRead(n, s);
    }
  }

  /** The members of an object in the order of a list of its keys. */
  ghost function MembersOf(v: Json, ks: seq<string>): (ms: seq<Member>)
    requires v.Obj? && Elements(ks) <= v.fields.Keys
  {
    seq(|ks|, i requires 0 <= i < |ks| => assert ks[i] in Elements(ks); (ks[i], v.fields[ks[i]]))
  }

  lemma {:induction false} FieldsOf(m: map<string, Json>, ms: seq<Member>)
    requires forall i :: 0 <= i < |ms| ==> ms[i].0 in m && m[ms[i].0] == ms[i].1
    ensures forall k :: k in Fields(ms) <==> exists i :: 0 <= i < |ms| && ms[i].0 == k
    ensures forall k :: k in Fields(ms) ==> k in m && Fields(ms)[k] == m[k]
  {
    if ms != [] {
      var n := |ms| - 1;
      FieldsOf(m, ms[..n]);
      forall k | exists i :: 0 <= i < |ms| && ms[i].0 == k ensures k in Fields(ms) {
        var i :| 0 <= i < |ms| && ms[i].0 == k;
        if i < n { assert ms[..n][i].0 == k; }
      }
      forall k | k in Fields(ms) ensures exists i :: 0 <= i < |ms| && ms[i].0 == k {
        if k in Fields(ms[..n]) {
          var i :| 0 <= i < n && ms[..n][i].0 == k;
          assert ms[i].0 == k;
        }
      }
    }
  }

  lemma MembersAreFields(e: Encoding, v: Json, ks: seq<string>)
    requires v.Obj? && Elements(ks) == v.fields.Keys && StrictlySorted(ks, UnitKey(e))
    ensures StrictlySorted(MembersOf(v, ks), MemberKey(e)) && Fields(MembersOf(v, ks)) == v.fields
  {
    hide Less;
    var ms := MembersOf(v, ks);
    FieldsOf(v.fields, ms);
    forall k | k in v.fields ensures k in Fields(ms) {
      assert k in Elements(ks);
      var i :| 0 <= i < |ks| && ks[i] == k;
      assert ms[i].0 == k;
    }
    forall i, j | 0 <= i < j < |ms| ensures Less(MemberKey(e)(ms[i]), MemberKey(e)(ms[j])) {
      assert Less(UnitKey(e)(ks[i]), UnitKey(e)(ks[j]));
    }
  }

  lemma HeadTail(c: char, s: string)
    ensures ([c] + s)[0] == c && ([c] + s)[1..] == s
  {
  }

  lemma LiteralRead(e: Encoding, v: Json, s: string)
    requires v.Null? || v.Bool?
    ensures ReadValue(e, Canon(e, v) + s) == Some((v, s))
  {
    var x := Canon(e, v);
    var t := x + s;
    assert x <= t && t[|x|..] == s && t[0] == x[0];
  }

  lemma EndsAfterInteger(s: string)
    requires Ends(s)
    ensures !DigitFirst(s)
  {
  }

  /** A canonical text is read as its value, wherever it stands in a document. */
  lemma {:induction false} CanonRead(e: Encoding, v: Json, s: string)
    requires Ends(s)
    ensures ReadValue(e, Canon(e, v) + s) == Some((v, s))
    decreases v, 1, 0
  {
    hide Ends, ReadChars, ReadInteger, ReadItems, ReadMembers;
    if v.Null? || v.Bool? {
      LiteralRead(e, v, s);
    } else if v.Num? {
      EndsAfterInteger(s);
      IntegerRead(v.n, s);
    } else if v.Str? {
      QuoteText(v.s, s);
      HeadTail('"', EscapeAll(v.s) + ("\"" + s));
      QuoteRead(v.s, s);
    } else if v.Arr? {
      ArrayRead(e, v, s);
    } else {
      ObjectRead(e, v, s);
    }
  }

  lemma {:induction false} ArrayRead(e: Encoding, v: Json, s: string)
    requires v.Arr? && Ends(s)
    ensures ReadValue(e, Canon(e, v) + s) == Some((v, s))
    decreases v, 0, |v.items| + 1
  {
    hide Ends, ReadItems;
    var t := ItemsText(e, v, 0, s);
    Regroup("[", CanonItems(e, v, 0), "]", s);
    HeadTail('[', t);
    ItemsHead(e, v, 0, s);
    if v.items == [] {
      HeadOfSum("", "]" + s);
      HeadTail(']', s);
      assert ("[" + t)[2..] == t[1..];
    } else {
      ItemsStep(e, v, 0, s);
      HeadOfSum("", Canon(e, v.items[0]) + ItemsText(e, v, 1, s));
      ItemsRead(e, v, 0, s);
      assert v.items[0..] == v.items;
    }
  }

  lemma {:induction false} ItemsRead(e: Encoding, v: Json, i: nat, s: string)
    requires v.Arr? && i < |v.items| && Ends(s)
    ensures ReadItems(e, Canon(e, v.items[i]) + ItemsText(e, v, i + 1, s)) == Some((v.items[i..], s))
    decreases v, 0, |v.items| - i
  {
    hide Ends, ReadValue, ItemsText;
    var rest := ItemsText(e, v, i + 1, s);
    ItemsHead(e, v, i + 1, s);
    CanonRead(e, v.items[i], rest);
    assert v.items[i..] == [v.items[i]] + v.items[i + 1..];
    if i + 1 == |v.items| {
      ItemsEnd(e, v, s);
      assert v.items[i..] == [v.items[i]];
      HeadTail(']', s);
    } else {
      ItemsStep(e, v, i + 1, s);
      HeadTail(',', Canon(e, v.items[i + 1]) + ItemsText(e, v, i + 2, s));
      ItemsRead(e, v, i + 1, s);
    }
  }

  lemma ItemsEnd(e: Encoding, v: Json, s: string)
    requires v.Arr?
    ensures ItemsText(e, v, |v.items|, s) == "]" + s
  {
    HeadOfSum("", "]" + s);
  }

  lemma MembersEnding(e: Encoding, v: Json, ks: seq<string>, s: string)
    requires v.Obj? && Elements(ks) <= v.fields.Keys
    ensures MembersText(e, v, ks, |ks|, s) == "}" + s
  {
    HeadOfSum("", "}" + s);
  }

  lemma {:induction false} ObjectRead(e: Encoding, v: Json, s: string)
    requires v.Obj? && Ends(s)
    ensures ReadValue(e, Canon(e, v) + s) == Some((v, s))
    decreases v, 0, |SortedKeys(e, v.fields.Keys)| + 1
  {
    hide Ends, ReadMembers, Less;
    var ks := SortedKeys(e, v.fields.Keys);
    var t := MembersText(e, v, ks, 0, s);
    ObjectText(e, v, s);
    HeadTail('{', t);
    if ks == [] {
      NoElements(ks);
      MembersEnding(e, v, ks, s);
      HeadTail('}', s);
      assert v.fields == map[] && ("{" + t)[2..] == t[1..];
    } else {
      MembersAreFields(e, v, ks);
      MembersRead(e, v, ks, 0, s);
      assert MembersOf(v, ks)[0..] == MembersOf(v, ks);
      MembersBegin(e, v, ks, s);
      BracesRead(e, "{" + t, MembersOf(v, ks), s);
    }
  }

  lemma ObjectText(e: Encoding, v: Json, s: string)
    requires v.Obj?
    ensures Canon(e, v) + s == "{" + MembersText(e, v, SortedKeys(e, v.fields.Keys), 0, s)
  {
    Regroup("{", CanonMembers(e, v, SortedKeys(e, v.fields.Keys), 0), "}", s);
  }

  lemma MembersBegin(e: Encoding, v: Json, ks: seq<string>, s: string)
    requires v.Obj? && Elements(ks) <= v.fields.Keys && ks != []
    ensures MembersText(e, v, ks, 0, s) == MemberText(e, v, ks, 0, s) && MemberText(e, v, ks, 0, s)[0] == '"'
  {
    hide MembersText;
    MembersStep(e, v, ks, 0, s);
    HeadOfSum("", MemberText(e, v, ks, 0, s));
  }

  lemma BracesRead(e: Encoding, t: string, ms: seq<Member>, s: string)
    requires 2 <= |t| && t[0] == '{' && t[1] != '}' && ReadMembers(e, t[1..]) == Some((ms, s))
    requires StrictlySorted(ms, MemberKey(e))
    ensures ReadValue(e, t) == Some((Obj(Fields(ms)), s))
  {
    hide ReadMembers, StrictlySorted;
  }

  /** The text of a member, and what follows it. */
  ghost function MemberText(e: Encoding, v: Json, ks: seq<string>, i: nat, s: string): string
    requires v.Obj? && Elements(ks) <= v.fields.Keys && i < |ks|
  {
    assert ks[i] in Elements(ks);
    "\"" + (EscapeAll(ks[i]) + ("\"" + (":" + (Canon(e, v.fields[ks[i]]) + MembersText(e, v, ks, i + 1, s)))))
  }

  lemma MemberRead(e: Encoding, v: Json, ks: seq<string>, i: nat, s: string)
    requires v.Obj? && Elements(ks) <= v.fields.Keys && i < |ks| && ks[i] in v.fields
    requires ReadValue(e, Canon(e, v.fields[ks[i]]) + MembersText(e, v, ks, i + 1, s))
          == Some((v.fields[ks[i]], MembersText(e, v, ks, i + 1, s)))
    ensures ReadMember(e, MemberText(e, v, ks, i, s))
         == Some(((ks[i], v.fields[ks[i]]), MembersText(e, v, ks, i + 1, s)))
  {
    hide ReadValue, ReadChars, MembersText;
    var text := Canon(e, v.fields[ks[i]]) + MembersText(e, v, ks, i + 1, s);
    HeadTail(':', text);
    HeadTail('"', EscapeAll(ks[i]) + ("\"" + (":" + text)));
    QuoteRead(ks[i], ":" + text);
  }

  lemma {:induction false} MembersRead(e: Encoding, v: Json, ks: seq<string>, i: nat, s: string)
    requires v.Obj? && Elements(ks) <= v.fields.Keys && i < |ks| && Ends(s)
    ensures ReadMembers(e, MemberText(e, v, ks, i, s)) == Some((MembersOf(v, ks)[i..], s))
    decreases v, 0, |ks| - i
  {
    hide Ends, ReadValue, ReadMember, MembersText, MemberText;
    var rest := MembersText(e, v, ks, i + 1, s);
    assert ks[i] in Elements(ks);
    MembersHead(e, v, ks, i + 1, s);
    CanonRead(e, v.fields[ks[i]], rest);
    MemberRead(e, v, ks, i, s);
    var ms := MembersOf(v, ks);
    assert ms[i..] == [ms[i]] + ms[i + 1..];
    if i + 1 == |ks| {
      MembersEnding(e, v, ks, s);
      assert ms[i..] == [ms[i]];
      HeadTail('}', s);
    } else {
      MemberFollows(e, v, ks, i + 1, s);
      HeadTail(',', MemberText(e, v, ks, i + 1, s));
      MembersRead(e, v, ks, i + 1, s);
    }
  }

  lemma MemberFollows(e: Encoding, v: Json, ks: seq<string>, i: nat, s: string)
    requires v.Obj? && Elements(ks) <= v.fields.Keys && 0 < i < |ks|
    ensures MembersText(e, v, ks, i, s) == "," + MemberText(e, v, ks, i, s)
  {
    MembersStep(e, v, ks, i, s);
  }

  /** Parsing a canonical text gives the value it was made from. */
  lemma CanonParses(e: Encoding, v: Json)
    ensures Parse(e, Canon(e, v)) == Some(v)
  {
    hide ReadValue;
    CanonRead(e, v, "");
    assert Canon(e, v) + "" == Canon(e, v);
  }

  // ----- So a text can be read in one way only -----

  /** A canonical text can be read in one way only, wherever it stands in a document. */
  lemma CanonPrefix(e: Encoding, a: Json, b: Json, s: string, t: string)
    requires Ends(s) && Ends(t) && Canon(e, a) + s == Canon(e, b) + t
    ensures a == b && s == t
  {
    CanonRead(e, a, s);
    CanonRead(e, b, t);
  }

  /** Equal payload text means equal payload: a hashed or signed text binds every field. */
  lemma CanonInjective(e: Encoding, a: Json, b: Json)
    ensures Canon(e, a) == Canon(e, b) <==> a == b
  {
    CanonParses(e, a);
    CanonParses(e, b);
  }

  // ----- No other text of the value is as short -----

  /** The text `x` is what was read from `t` up to `rest`, or is shorter than it. */
  ghost predicate Best(x: string, rest: string, t: string) { x + rest == t || |x| + |rest| < |t| }

  lemma BestSum(x: string, y: string, u: string, rest: string, t: string)
    requires Best(x, u, t) && Best(y, rest, u)
    ensures Best(x + y, rest, t)
  {
    assert x + y + rest == x + (y + rest);
  }

  lemma HexUnread(c: char)
    requires HexValue(c).Some?
    ensures HexDigit(HexValue(c).value) == c
  {
  }

  lemma UnitBest(t: string)
    requires 2 <= |t| && t[0] == '\\' && t[1] == 'u' && ReadUnit(t).Some?
    ensures Best(Escape(ReadUnit(t).value.0), ReadUnit(t).value.1, t)
  {
    hide Escape, HexDigit, HexValue;
    var (c, rest) := ReadUnit(t).value;
    EscapeLength(c);
    if |Escape(c)| == 6 {
      HexUnread(t[2]);
      HexUnread(t[3]);
      HexUnread(t[4]);
      HexUnread(t[5]);
      ShortDigits(c as nat, HexValue(t[2]).value, HexValue(t[3]).value, HexValue(t[4]).value, HexValue(t[5]).value);
      assert Escape(c) == t[..6];
    }
  }

  lemma EscapeLength(c: char)
    ensures |Escape(c)| <= 6
    ensures |Escape(c)| == 6 ==>
        c < ' ' && Escape(c) == ['\\', 'u', HexDigit(0), HexDigit(0), HexDigit(c as int / 16), HexDigit(c as int % 16)]
  {
  }

  lemma ShortDigits(n: nat, a: nat, b: nat, c: nat, d: nat)
    requires n < 32 && n == 4096 * a + 256 * b + 16 * c + d && d < 16
    ensures a == 0 && b == 0 && c == n / 16 && d == n % 16
  {
  }

  lemma CharBest(t: string)
    requires ReadChar(t).Some?
    ensures Best(Escape(ReadChar(t).value.0), ReadChar(t).value.1, t)
  {
    hide ReadUnit;
    if t[0] == '\\' {
      if t[1] == 'u' {
        UnitBest(t);
      } else if t[1] != '/' {
        assert Escape(ReadChar(t).value.0) == t[..2];
      }
    } else {
      assert Escape(t[0]) == [t[0]];
    }
  }

  lemma {:induction false} CharsBest(t: string)
    requires ReadChars(t).Some?
    ensures Best(EscapeAll(ReadChars(t).value.0) + "\"", ReadChars(t).value.1, t)
    decreases |t|
  {
    hide Escape, ReadChar;
    if t != "" && t[0] == '"' {
      assert EscapeAll("") + "\"" == "\"";
    } else {
      var (c, rest) := ReadChar(t).value;
      var (cs, after) := ReadChars(rest).value;
      CharBest(t);
      CharsBest(rest);
      BestSum(Escape(c), EscapeAll(cs) + "\"", rest, after, t);
      assert ([c] + cs)[1..] == cs;
      Assoc(Escape(c), EscapeAll(cs), "\"");
    }
  }

  lemma QuoteBest(t: string)
    requires t != "" && t[0] == '"' && ReadChars(t[1..]).Some?
    ensures Best(Quote(ReadChars(t[1..]).value.0), ReadChars(t[1..]).value.1, t)
  {
    var (cs, rest) := ReadChars(t[1..]).value;
    CharsBest(t[1..]);
    BestSum("\"", EscapeAll(cs) + "\"", t[1..], rest, t);
    Assoc("\"", EscapeAll(cs), "\"");
  }

  lemma DecimalNext(n: nat, d: nat)
    requires 0 < n && d < 10
    ensures Decimal(10 * n + d) == Decimal(n) + [Digit(d)]
  {
    assert (10 * n + d) / 10 == n && (10 * n + d) % 10 == d;
  }

  lemma {:induction false} DigitsUnread(t: string, n: nat)
    requires 0 < n
    ensures Decimal(n) + t == Decimal(ReadDigits(t, n).0) + ReadDigits(t, n).1
    decreases |t|
  {
    hide Decimal;
    if DigitFirst(t) {
      var d := (t[0] - '0') as nat;
      DigitsUnread(t[1..], 10 * n + d);
      DecimalNext(n, d);
      assert [Digit(d)] + t[1..] == t;
      Assoc(Decimal(n), [Digit(d)], t[1..]);
    }
  }

  lemma NaturalUnread(t: string)
    requires ReadNatural(t).Some?
    ensures var (n, rest) := ReadNatural(t).value; Decimal(n) + rest == t
  {
    if t[0] == '0' {
      assert Decimal(0) == "0" && "0" + t[1..] == t;
    } else {
      var d := (t[0] - '0') as nat;
      DigitsUnread(t[1..], d);
      assert Decimal(d) == [t[0]] && [t[0]] + t[1..] == t;
    }
  }

  lemma IntegerBest(t: string)
    requires ReadInteger(t).Some?
    ensures Best(Integer(ReadInteger(t).value.0), ReadInteger(t).value.1, t)
  {
    hide ReadNatural;
    if t != "" && t[0] == '-' {
      var (n, rest) := ReadNatural(t[1..]).value;
      NaturalUnread(t[1..]);
      if n == 0 { assert Integer(0) == Decimal(0); }
      var z: int := n;
      assert n != 0 ==> Integer(-z) + rest == "-" + t[1..] == t;
    } else {
      NaturalUnread(t);
    }
  }

  lemma NamesSorted(e: Encoding, ms: seq<Member>)
    requires StrictlySorted(ms, MemberKey(e))
    ensures StrictlySorted(NamesOf(ms), UnitKey(e))
  {
    hide Less;
    var ks := NamesOf(ms);
    forall i, j | 0 <= i < j < |ks| ensures Less(UnitKey(e)(ks[i]), UnitKey(e)(ks[j])) {
      assert Less(MemberKey(e)(ms[i]), MemberKey(e)(ms[j]));
    }
  }

  predicate Apart(ms: seq<Member>) { forall i, j :: 0 <= i < j < |ms| ==> ms[i].0 != ms[j].0 }

  lemma NamesDistinct(e: Encoding, ms: seq<Member>)
    requires StrictlySorted(ms, MemberKey(e))
    ensures Apart(ms)
  {
    forall i, j | 0 <= i < j < |ms| ensures ms[i].0 != ms[j].0 {
      LessIrreflexive(MemberKey(e)(ms[j]));
      assert Less(MemberKey(e)(ms[i]), MemberKey(e)(ms[j]));
    }
  }

  lemma {:induction false} FieldNames(ms: seq<Member>)
    ensures Fields(ms).Keys == Elements(NamesOf(ms))
  {
    if ms == [] {
      NoElements(NamesOf(ms));
    } else {
      var n := |ms| - 1;
      FieldNames(ms[..n]);
      assert NamesOf(ms) == NamesOf(ms[..n]) + [ms[n].0];
      ElementsSnoc(NamesOf(ms[..n]), ms[n].0);
    }
  }

  lemma {:induction false} FieldAt(ms: seq<Member>, i: nat)
    requires Apart(ms) && i < |ms|
    ensures ms[i].0 in Fields(ms) && Fields(ms)[ms[i].0] == ms[i].1
  {
    var n := |ms| - 1;
    if i < n {
      assert Apart(ms[..n]) by { ApartFront(ms, n); }
      FieldAt(ms[..n], i);
    }
  }

  lemma ApartFront(ms: seq<Member>, n: nat)
    requires Apart(ms) && n <= |ms|
    ensures Apart(ms[..n])
  {
  }

  function NamesOf(ms: seq<Member>): seq<string> { seq(|ms|, i requires 0 <= i < |ms| => ms[i].0) }

  /** What a reader of a part of the text returns comes from a text no longer than the canonical one. */
  lemma {:induction false} ValueBest(e: Encoding, t: string)
    requires ReadValue(e, t).Some?
    ensures Best(Canon(e, ReadValue(e, t).value.0), ReadValue(e, t).value.1, t)
    decreases |t|, 2
  {
    hide ReadChars, ReadItems, ReadMembers, ReadInteger, Integer, Quote;
    if t[0] == '"' {
      QuoteBest(t);
    } else if t[0] == '[' {
      ArrayBest(e, t);
    } else if t[0] == '{' {
      ObjectBest(e, t);
    } else if "null" <= t {
      assert "null" + t[4..] == t;
    } else if "true" <= t {
      assert "true" + t[4..] == t;
    } else if "false" <= t {
      assert "false" + t[5..] == t;
    } else {
      IntegerBest(t);
    }
  }

  lemma {:induction false} ArrayBest(e: Encoding, t: string)
    requires ReadValue(e, t).Some? && t[0] == '['
    ensures Best(Canon(e, ReadValue(e, t).value.0), ReadValue(e, t).value.1, t)
    decreases |t|, 0
  {
    hide ReadItems, ReadValue, ItemsText;
    ArrayParts(e, t);
    var (v, rest) := ReadValue(e, t).value;
    ArrayText(e, v);
    if v.items == [] {
      ItemsEnd(e, v, "");
      assert "[]" + t[2..] == t;
    } else {
      assert v.items[0..] == v.items && "[" + t[1..] == t;
      ItemsBest(e, v, 0, t[1..]);
      ItemsStep(e, v, 0, "");
      HeadOfSum("", Canon(e, v.items[0]) + ItemsText(e, v, 1, ""));
      BestSum("[", ItemsText(e, v, 0, ""), t[1..], rest, t);
    }
  }

  lemma ArrayText(e: Encoding, v: Json)
    requires v.Arr?
    ensures Canon(e, v) == "[" + ItemsText(e, v, 0, "")
  {
    Regroup("[", CanonItems(e, v, 0), "]", "");
  }

  lemma ArrayParts(e: Encoding, t: string)
    requires ReadValue(e, t).Some? && t[0] == '['
    ensures var (v, rest) := ReadValue(e, t).value;
            v.Arr?
            && if v.items == [] then |t| > 1 && t[1] == ']' && rest == t[2..]
               else ReadItems(e, t[1..]) == Some((v.items, rest))
  {
    hide ReadItems;
  }

  lemma ObjectParts(e: Encoding, t: string)
    requires ReadValue(e, t).Some? && t[0] == '{'
    ensures var (v, rest) := ReadValue(e, t).value;
            if |t| > 1 && t[1] == '}' then v == Obj(map[]) && rest == t[2..]
            else ReadMembers(e, t[1..]).Some? && ReadMembers(e, t[1..]).value.1 == rest
                 && v == Obj(Fields(ReadMembers(e, t[1..]).value.0))
                 && StrictlySorted(ReadMembers(e, t[1..]).value.0, MemberKey(e))
  {
    hide ReadMembers, StrictlySorted;
  }

  lemma {:induction false} ItemsBest(e: Encoding, v: Json, i: nat, t: string)
    requires v.Arr? && i <= |v.items| && ReadItems(e, t).Some? && ReadItems(e, t).value.0 == v.items[i..]
    ensures i < |v.items|
    ensures Best(Canon(e, v.items[i]) + ItemsText(e, v, i + 1, ""), ReadItems(e, t).value.1, t)
    decreases |t|, 3
  {
    hide ReadValue, ItemsText;
    var (w, rest) := ReadValue(e, t).value;
    ValueBest(e, t);
    assert v.items[i] == w by { assert v.items[i..][0] == w; }
    if rest[0] == ']' {
      assert v.items[i..] == [w];
      ItemsEnd(e, v, "");
      assert "]" + rest[1..] == rest;
      BestSum(Canon(e, w), "]" + "", rest, rest[1..], t);
    } else {
      var (vs, after) := ReadItems(e, rest[1..]).value;
      assert v.items[i + 1..] == vs by { assert v.items[i..][1..] == vs; }
      ItemsBest(e, v, i + 1, rest[1..]);
      ItemsStep(e, v, i + 1, "");
      assert "," + rest[1..] == rest;
      BestSum(",", Canon(e, v.items[i + 1]) + ItemsText(e, v, i + 2, ""), rest[1..], after, rest);
      BestSum(Canon(e, w), ItemsText(e, v, i + 1, ""), rest, after, t);
    }
  }

  lemma {:induction false} ObjectBest(e: Encoding, t: string)
    requires ReadValue(e, t).Some? && t[0] == '{'
    ensures Best(Canon(e, ReadValue(e, t).value.0), ReadValue(e, t).value.1, t)
    decreases |t|, 1
  {
    hide ReadMembers, ReadValue, MembersText, MemberText, StrictlySorted, Less;
    ObjectParts(e, t);
    if 1 < |t| && t[1] == '}' {
      NoMembersText(e);
      assert "{}" + t[2..] == t;
    } else {
      BracesBest(e, ReadMembers(e, t[1..]).value.0, t);
    }
  }

  lemma NoMembersText(e: Encoding)
    ensures Canon(e, Obj(map[])) == "{}"
  {
    NoElements(SortedKeys(e, {}));
  }

  lemma {:induction false} BracesBest(e: Encoding, ms: seq<Member>, t: string)
    requires t != "" && t[0] == '{' && StrictlySorted(ms, MemberKey(e))
    requires ReadMembers(e, t[1..]).Some? && ReadMembers(e, t[1..]).value.0 == ms
    ensures Best(Canon(e, Obj(Fields(ms))), ReadMembers(e, t[1..]).value.1, t)
    decreases |t|, 0
  {
    hide ReadMembers, MembersText, MemberText, StrictlySorted, Less, Fields, Canon;
    var v := Obj(Fields(ms));
    var ks, rest := SortedKeys(e, v.fields.Keys), ReadMembers(e, t[1..]).value.1;
    ReadInOrder(e, v, ms);
    assert ms[0..] == ms && "{" + t[1..] == t;
    MembersBest(e, v, ks, 0, t[1..]);
    MembersBegin(e, v, ks, "");
    ObjectText(e, v, "");
    assert Canon(e, v) + "" == Canon(e, v);
    BestSum("{", MembersText(e, v, ks, 0, ""), t[1..], rest, t);
  }

  /** Members read in ascending order are the ones the serialiser writes, in its order. */
  lemma ReadInOrder(e: Encoding, v: Json, ms: seq<Member>)
    requires v == Obj(Fields(ms)) && StrictlySorted(ms, MemberKey(e))
    ensures MembersOf(v, SortedKeys(e, v.fields.Keys)) == ms
  {
    hide Less, Fields;
    NamesSorted(e, ms);
    NamesDistinct(e, ms);
    FieldNames(ms);
    forall i | 0 <= i < |ms| ensures ms[i].0 in Fields(ms) && Fields(ms)[ms[i].0] == ms[i].1 {
      FieldAt(ms, i);
    }
    StrictlySortedUnique(NamesOf(ms), SortedKeys(e, v.fields.Keys), UnitKey(e));
  }

  lemma {:induction false} MembersBest(e: Encoding, v: Json, ks: seq<string>, i: nat, t: string)
    requires v.Obj? && Elements(ks) <= v.fields.Keys && i <= |ks|
    requires ReadMembers(e, t).Some? && ReadMembers(e, t).value.0 == MembersOf(v, ks)[i..]
    ensures i < |ks| && Best(MemberText(e, v, ks, i, ""), ReadMembers(e, t).value.1, t)
    decreases |t|, 3
  {
    hide ReadMember, MembersText, MemberText;
    var ms := MembersOf(v, ks);
    var (m, rest) := ReadMember(e, t).value;
    assert ms[i] == m by { assert ms[i..][0] == m; }
    if rest[0] == '}' {
      assert ms[i..] == [m];
      MembersEnding(e, v, ks, "");
      assert "}" + rest[1..] == rest;
      MemberBest(e, v, ks, i, t, rest[1..]);
    } else {
      var (rs, after) := ReadMembers(e, rest[1..]).value;
      assert ms[i + 1..] == rs by { assert ms[i..][1..] == rs; }
      MembersBest(e, v, ks, i + 1, rest[1..]);
      MemberFollows(e, v, ks, i + 1, "");
      assert "," + rest[1..] == rest;
      BestSum(",", MemberText(e, v, ks, i + 1, ""), rest[1..], after, rest);
      MemberBest(e, v, ks, i, t, after);
    }
  }

  lemma {:induction false} MemberBest(e: Encoding, v: Json, ks: seq<string>, i: nat, t: string, after: string)
    requires v.Obj? && Elements(ks) <= v.fields.Keys && i < |ks|
    requires ReadMember(e, t).Some? && ReadMember(e, t).value.0 == MembersOf(v, ks)[i]
    requires Best(MembersText(e, v, ks, i + 1, ""), after, ReadMember(e, t).value.1)
    ensures Best(MemberText(e, v, ks, i, ""), after, t)
    decreases |t|, 1
  {
    hide ReadValue, ReadChars, MembersText, Quote;
    var (k, rest) := ReadChars(t[1..]).value;
    var (w, u) := ReadValue(e, rest[1..]).value;
    var tail := MembersText(e, v, ks, i + 1, "");
    QuoteBest(t);
    ValueBest(e, rest[1..]);
    assert ":" + rest[1..] == rest;
    BestSum(Canon(e, w), tail, u, after, rest[1..]);
    BestSum(":", Canon(e, w) + tail, rest[1..], after, rest);
    BestSum(Quote(k), ":" + (Canon(e, w) + tail), rest, after, t);
    QuoteText(k, ":" + (Canon(e, w) + tail));
  }

  /** Of all the texts of a value the canonical one is the shortest, and no other is as short. */
  lemma CanonShortest(e: Encoding, t: string)
    requires Parse(e, t).Some?
    ensures t == Canon(e, Parse(e, t).value) || |Canon(e, Parse(e, t).value)| < |t|
  {
    hide ReadValue;
    ValueBest(e, t);
    assert Canon(e, Parse(e, t).value) + "" == Canon(e, Parse(e, t).value);
  }
}
