/**
 Canonical JSON text, the payload of every hash and signature in the system, and the normal form
 that makes a capability list a set.
 */
module CanonicalJson {
  import opened Ordering
  import opened Unicode

  /** A JSON value. An object is its mapping: the order in which keys were added is not a part of it. */
  datatype Json =
    | Null
    | Bool(b: bool)
    | Num(n: int)
    | Str(s: string)
    | Arr(items: seq<Json>)
    | Obj(fields: map<string, Json>)

  // ----- Scalars -----

  function HexDigit(n: nat): char
    requires n < 16
  {
    if n < 10 then '0' + n as char else 'a' + (n - 10) as char
  }

  function Escape(c: char): string
  {
    if c == '"' then "\\\""
    else if c == '\\' then "\\\\"
    else if c == '\U{0008}' then "\\b"
    else if c == '\t' then "\\t"
    else if c == '\n' then "\\n"
    else if c == '\U{000C}' then "\\f"
    else if c == '\r' then "\\r"
    else if c < ' ' then "\\u00" + [HexDigit(c as int / 16), HexDigit(c as int % 16)]
    else [c]
  }

  function EscapeAll(s: string): string
  {
    if s == [] then "" else Escape(s[0]) + EscapeAll(s[1..])
  }

  function Quote(s: string): string { "\"" + EscapeAll(s) + "\"" }

  function Digit(n: nat): char
    requires n < 10
  {
    '0' + n as char
  }

  function Decimal(n: nat): string
  {
    (if n < 10 then "" else Decimal(n / 10)) + [Digit(n % 10)]
  }

  function Integer(n: int): string
  {
    if n < 0 then "-" + Decimal(-n) else Decimal(n)
  }

  // ----- The serialiser -----

  function UnitKey(e: Encoding): string -> Key { (k: string) => Encode(e, k) }

  ghost function SortedKeys(e: Encoding, keys: set<string>): (ks: seq<string>)
    ensures StrictlySorted(ks, UnitKey(e)) && Elements(ks) == keys
  {
    UnitKeyInjective(e, keys);
    SortSet(keys, UnitKey(e))
  }

  lemma UnitKeyInjective(e: Encoding, keys: set<string>)
    ensures InjectiveOn(keys, UnitKey(e))
  {
    forall x, y | x in keys && y in keys && UnitKey(e)(x) == UnitKey(e)(y) ensures x == y {
      EncodeInjective(e, x, y);
    }
  }

  ghost function Canon(e: Encoding, v: Json): string
    decreases v, 1, 0
  {
    match v
    case Null => "null"
    case Bool(b) => if b then "true" else "false"
    case Num(n) => Integer(n)
    case Str(s) => Quote(s)
    case Arr(_) => "[" + CanonItems(e, v, 0) + "]"
    case Obj(fields) => "{" + CanonMembers(e, v, SortedKeys(e, fields.Keys), 0) + "}"
  }

  ghost function CanonItems(e: Encoding, v: Json, i: nat): string
    requires v.Arr? && i <= |v.items|
    decreases v, 0, |v.items| - i
  {
    if i == |v.items| then ""
    else (if i > 0 then "," else "") + Canon(e, v.items[i]) + CanonItems(e, v, i + 1)
  }

  ghost function CanonMembers(e: Encoding, v: Json, ks: seq<string>, i: nat): string
    requires v.Obj? && Elements(ks) <= v.fields.Keys && i <= |ks|
    decreases v, 0, |ks| - i
  {
    if i == |ks| then "" else
      assert ks[i] in Elements(ks);
      (if i > 0 then "," else "") + Quote(ks[i]) + ":" + Canon(e, v.fields[ks[i]])
      + CanonMembers(e, v, ks, i + 1)
  }

  // ----- The shape of a text -----

  lemma Cancel(x: string, y: string, s: string, t: string)
    requires |x| == |y| && x + s == y + t
    ensures x == y && s == t
  {
    assert x == (x + s)[..|x|] && y == (y + t)[..|y|];
    assert s == (x + s)[|x|..] && t == (y + t)[|y|..];
  }

  lemma Regroup(x: string, y: string, z: string, s: string)
    ensures x + y + z + s == x + (y + (z + s))
  {}

  lemma Assoc(x: string, y: string, z: string)
    ensures x + y + z == x + (y + z)
    ensures x != "" ==> (x + (y + z))[0] == x[0]
  {}

  lemma EscapeHead(c: char)
    ensures Escape(c) != "" && Escape(c)[0] != '"'
  {}

  /** The escaped rest of a string runs on to an escape, or to the closing quote. */
  lemma EscapeStep(a: string, s: string)
    ensures EscapeAll(a) + ("\"" + s) != []
    ensures (EscapeAll(a) + ("\"" + s))[0] == '"' <==> a == []
    ensures a != [] ==> EscapeAll(a) + ("\"" + s) == Escape(a[0]) + (EscapeAll(a[1..]) + ("\"" + s))
    ensures a == [] ==> EscapeAll(a) + ("\"" + s) == "\"" + s
  {
    hide Escape;
    if a != [] {
      Assoc(Escape(a[0]), EscapeAll(a[1..]), "\"" + s);
      EscapeHead(a[0]);
    }
  }

  /** A quoted string, with what follows it. */
  lemma QuoteText(k: string, s: string)
    ensures Quote(k) + s == "\"" + (EscapeAll(k) + ("\"" + s))
  {
    Regroup("\"", EscapeAll(k), "\"", s);
  }

  /** What may follow a value inside a document. */
  predicate Ends(s: string) { s == [] || s[0] == ',' || s[0] == ']' || s[0] == '}' }

  lemma {:induction false} DecimalDigits(n: nat)
    ensures Decimal(n) != [] && forall i :: 0 <= i < |Decimal(n)| ==> IsDigit(Decimal(n)[i] as nat)
  {
    if n >= 10 { DecimalDigits(n / 10); }
  }

  predicate Heads(v: Json, c: char)
  {
    match v
    case Null => c == 'n'
    case Bool(b) => c == if b then 't' else 'f'
    case Num(_) => c == '-' || IsDigit(c as nat)
    case Str(_) => c == '"'
    case Arr(_) => c == '['
    case Obj(_) => c == '{'
  }

  /** The first character of a text tells the kind of the value. */
  lemma CanonHead(e: Encoding, v: Json)
    ensures Canon(e, v) != [] && Heads(v, Canon(e, v)[0])
  {
    if v.Num? { DecimalDigits(if v.n < 0 then -v.n else v.n); }
  }

  function Separator(i: nat): string { if i > 0 then "," else "" }

  /** The rest of an array's text from item `i`, with what follows the array. */
  ghost function ItemsText(e: Encoding, v: Json, i: nat, s: string): string
    requires v.Arr? && i <= |v.items|
  {
    CanonItems(e, v, i) + ("]" + s)
  }

  ghost function MembersText(e: Encoding, v: Json, ks: seq<string>, i: nat, s: string): string
    requires v.Obj? && Elements(ks) <= v.fields.Keys && i <= |ks|
  {
    CanonMembers(e, v, ks, i) + ("}" + s)
  }

  lemma ItemsStep(e: Encoding, v: Json, i: nat, s: string)
    requires v.Arr? && i < |v.items|
    ensures ItemsText(e, v, i, s) == Separator(i) + (Canon(e, v.items[i]) + ItemsText(e, v, i + 1, s))
  {
    Regroup(Separator(i), Canon(e, v.items[i]), CanonItems(e, v, i + 1), "]" + s);
  }

  lemma HeadOfSum(x: string, y: string)
    ensures x != "" ==> (x + y)[0] == x[0]
    ensures x == "" ==> x + y == y
  {}

  lemma ItemsHead(e: Encoding, v: Json, i: nat, s: string)
    requires v.Arr? && i <= |v.items|
    ensures ItemsText(e, v, i, s) != []
    ensures ItemsText(e, v, i, s)[0] == ']' <==> i == |v.items|
    ensures 0 < i ==> Ends(ItemsText(e, v, i, s))
  {
    if i == |v.items| {
      HeadOfSum("", "]" + s);
    } else {
      var rest := Canon(e, v.items[i]) + ItemsText(e, v, i + 1, s);
      ItemsStep(e, v, i, s);
      CanonHead(e, v.items[i]);
      HeadOfSum(Canon(e, v.items[i]), ItemsText(e, v, i + 1, s));
      HeadOfSum(Separator(i), rest);
    }
  }

  lemma MembersStep(e: Encoding, v: Json, ks: seq<string>, i: nat, s: string)
    requires v.Obj? && Elements(ks) <= v.fields.Keys && i < |ks|
    ensures ks[i] in v.fields
    ensures MembersText(e, v, ks, i, s)
         == Separator(i) + ("\"" + (EscapeAll(ks[i]) + ("\""
            + (":" + (Canon(e, v.fields[ks[i]]) + MembersText(e, v, ks, i + 1, s))))))
  {
    assert ks[i] in Elements(ks);
    var c, m, tail := Canon(e, v.fields[ks[i]]), CanonMembers(e, v, ks, i + 1), "}" + s;
    Regroup(Separator(i) + Quote(ks[i]), ":", c + m, tail);
    Regroup(":", c, m, tail);
    Regroup("", Separator(i), Quote(ks[i]), ":" + (c + (m + tail)));
    SumOfFive(Separator(i), Quote(ks[i]), ":", c, m, tail);
    QuoteText(ks[i], ":" + (c + (m + tail)));
  }

  lemma SumOfFive(a: string, b: string, c: string, d: string, f: string, s: string)
    ensures a + b + c + d + f + s == a + (b + (c + (d + (f + s))))
  {
    Regroup(a + b + c, d, f, s);
    Regroup(a, b, c, d + (f + s));
  }

  lemma MembersHead(e: Encoding, v: Json, ks: seq<string>, i: nat, s: string)
    requires v.Obj? && Elements(ks) <= v.fields.Keys && i <= |ks|
    ensures MembersText(e, v, ks, i, s) != []
    ensures MembersText(e, v, ks, i, s)[0] == '}' <==> i == |ks|
    ensures 0 < i ==> Ends(MembersText(e, v, ks, i, s))
  {
    if i == |ks| {
      HeadOfSum("", "}" + s);
    } else {
      MembersStep(e, v, ks, i, s);
      var rest := EscapeAll(ks[i]) + ("\"" + (":" + (Canon(e, v.fields[ks[i]]) + MembersText(e, v, ks, i + 1, s))));
      HeadOfSum(Separator(i), "\"" + rest);
      HeadOfSum("\"", rest);
    }
  }
}
