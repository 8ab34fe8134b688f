/** The three definitions of an application slug, and the contract's semantic version. */
module Slugs {
  import opened Ordering
  import opened Splitting
  import opened Unicode

  const DASH: nat := 45
  const DOT: nat := 46

  predicate IsLower(u: nat) { 97 <= u <= 122 }

  predicate IsAlnum(u: nat) { IsLower(u) || IsDigit(u) }

  predicate Segment(p: Key) { p != [] && forall i :: 0 <= i < |p| ==> IsAlnum(p[i]) }

  predicate FirstSegment(p: Key) { Segment(p) && IsLower(p[0]) }

  predicate Segments(parts: seq<Key>) { forall i :: 0 <= i < |parts| ==> Segment(parts[i]) }

  /** The scheduler's check: split at dashes and look at each part. */
  predicate IsApplicationSlug(b: Key)
  {
    var parts := Split(b, DASH);
    3 <= |b| <= 64 && FirstSegment(parts[0]) && Segments(parts[1..])
  }

  /**
   The schema's regular expression `[a-z][a-z0-9]*(?:-[a-z0-9]+)*`, anchored at both ends, with
   its length bounds: some way of reading the text as segments with dashes between them.
   */
  ghost predicate MatchesSchema(u: Key)
  {
    3 <= |u| <= 64
    && exists parts: seq<Key> :: parts != [] && FirstSegment(parts[0]) && Segments(parts) && Join(parts, DASH) == u
  }

  // ----- Splitting is the only reading -----

  lemma {:induction false} SplitJoin(parts: seq<Key>)
    requires parts != [] && Segments(parts)
    ensures Split(Join(parts, DASH), DASH) == parts
  {
    if |parts| == 1 {
      SplitSegment(parts[0]);
      assert parts == [parts[0]];
    } else {
      SplitJoin(parts[1..]);
      SplitAfterSegment(parts[0], Join(parts[1..], DASH));
      assert parts[0] + [DASH] + Join(parts[1..], DASH) == parts[0] + ([DASH] + Join(parts[1..], DASH));
      assert parts == [parts[0]] + parts[1..];
    }
  }

  lemma {:induction false} SplitSegment(p: Key)
    requires forall i :: 0 <= i < |p| ==> IsAlnum(p[i])
    ensures Split(p, DASH) == [p]
  {
    if p != [] {
      SplitSegment(p[1..]);
      assert p == [p[0]] + p[1..];
    }
  }

  lemma {:induction false} SplitAfterSegment(p: Key, rest: Key)
    requires forall i :: 0 <= i < |p| ==> IsAlnum(p[i])
    ensures Split(p + ([DASH] + rest), DASH) == [p] + Split(rest, DASH)
  {
    var b := p + ([DASH] + rest);
    if p == [] {
      assert b == [DASH] + rest && b[1..] == rest;
    } else {
      assert b[1..] == p[1..] + ([DASH] + rest);
      SplitAfterSegment(p[1..], rest);
      assert p == [p[0]] + p[1..];
      assert ([p[1..]] + Split(rest, DASH))[1..] == Split(rest, DASH);
    }
  }

  lemma SplitIsSchema(b: Key)
    ensures IsApplicationSlug(b) <==> MatchesSchema(b)
  {
    var parts := Split(b, DASH);
    JoinSplit(b, DASH);
    if IsApplicationSlug(b) {
      assert forall i :: 0 < i < |parts| ==> parts[i] == parts[1..][i - 1];
      assert Segments(parts);
    }
    if MatchesSchema(b) {
      var ps: seq<Key> :| ps != [] && FirstSegment(ps[0]) && Segments(ps) && Join(ps, DASH) == b;
      SplitJoin(ps);
    }
  }

  // ----- The single pass -----

  /** What one pass with a previous-dash flag establishes. */
  predicate Shape(b: Key)
  {
    b != [] && b[0] != DASH && b[|b| - 1] != DASH
    && (forall i :: 0 <= i < |b| ==> IsAlnum(b[i]) || b[i] == DASH)
    && (forall i :: 0 < i < |b| ==> b[i - 1] != DASH || b[i] != DASH)
  }

  lemma {:induction false} ShapeIsSegments(b: Key)
    ensures Shape(b) <==> Segments(Split(b, DASH))
  {
    var parts := Split(b, DASH);
    if b == [] || b[0] == DASH {
      assert parts[0] == [];
      assert !Segments(parts);
    } else {
      var rest := Split(b[1..], DASH);
      assert parts == [[b[0]] + rest[0]] + rest[1..];
      HeadSegment([b[0]] + rest[0], rest[1..]);
      if |b| == 1 {
        assert rest == [[]];
        assert [b[0]] + rest[0] == [b[0]];
        assert Segment([b[0]]) <==> IsAlnum([b[0]][0]);
      } else if b[1] == DASH {
        assert b[1..][1..] == b[2..];
        assert rest == [[]] + Split(b[2..], DASH);
        assert [b[0]] + rest[0] == [b[0]] && rest[1..] == Split(b[2..], DASH);
        ShapeIsSegments(b[2..]);
        assert Segment([b[0]]) <==> IsAlnum([b[0]][0]);
        ShapeAfterDash(b);
      } else {
        assert rest[0] != [];
        HeadSegment(rest[0], rest[1..]);
        assert rest == [rest[0]] + rest[1..];
        GrowSegment(b[0], rest[0]);
        ShapeIsSegments(b[1..]);
        ShapeAfterLetter(b);
      }
    }
  }

  lemma ShapeAfterDash(b: Key)
    requires |b| >= 2 && b[0] != DASH && b[1] == DASH
    ensures Shape(b) <==> IsAlnum(b[0]) && Shape(b[2..])
  {
    var t := b[2..];
    assert forall i :: 0 <= i < |t| ==> t[i] == b[i + 2];
    assert forall i :: 2 <= i < |b| ==> b[i] == t[i - 2];
    if |t| > 0 { assert t[|t| - 1] == b[|b| - 1]; }
  }

  lemma ShapeAfterLetter(b: Key)
    requires |b| >= 2 && b[0] != DASH && b[1] != DASH
    ensures Shape(b) <==> IsAlnum(b[0]) && Shape(b[1..])
  {
    var t := b[1..];
    assert forall i :: 0 <= i < |t| ==> t[i] == b[i + 1];
    assert forall i :: 1 <= i < |b| ==> b[i] == t[i - 1];
  }

  lemma HeadSegment(p: Key, ps: seq<Key>)
    ensures Segments([p] + ps) <==> Segment(p) && Segments(ps)
  {
    if Segments([p] + ps) {
      assert ([p] + ps)[0] == p;
      assert forall i :: 0 <= i < |ps| ==> ps[i] == ([p] + ps)[i + 1];
    }
  }

  lemma GrowSegment(u: nat, p: Key)
    requires p != []
    ensures Segment([u] + p) <==> IsAlnum(u) && Segment(p)
  {
    if Segment([u] + p) {
      assert ([u] + p)[0] == u;
      assert forall i :: 0 <= i < |p| ==> p[i] == ([u] + p)[i + 1];
    }
  }

  lemma ShapeIsSlug(b: Key)
    requires 3 <= |b| <= 64
    ensures IsApplicationSlug(b) <==> IsLower(b[0]) && Shape(b)
  {
    var parts := Split(b, DASH);
    ShapeIsSegments(b);
    HeadSegment(parts[0], parts[1..]);
    assert parts == [parts[0]] + parts[1..];
    if b[0] != DASH { assert parts[0][0] == b[0]; }
  }

  /** The manifest's check: one pass that remembers whether the previous byte was a dash. */
  method IsSlug(bytes: Key) returns (r: bool)
    ensures r <==> IsApplicationSlug(bytes)
  {
    if |bytes| < 3 || |bytes| > 64 || !IsLower(bytes[0]) {
      if 3 <= |bytes| <= 64 { ShapeIsSlug(bytes); }
      return false;
    }
    ShapeIsSlug(bytes);
    var previousDash := false;
    for i := 0 to |bytes|
      invariant previousDash <==> i > 0 && bytes[i - 1] == DASH
      invariant forall j :: 0 <= j < i ==> IsAlnum(bytes[j]) || bytes[j] == DASH
      invariant forall j :: 0 < j < i ==> bytes[j - 1] != DASH || bytes[j] != DASH
    {
      var byte := bytes[i];
      if !(IsLower(byte) || IsDigit(byte) || byte == DASH) || (byte == DASH && previousDash) {
        return false;
      }
      previousDash := byte == DASH;
    }
    r := !previousDash;
  }

  // ----- Bytes and UTF-16 units -----

  predicate AsciiUnits(u: Key) { forall i :: 0 <= i < |u| ==> u[i] < 128 }

  /** A text is ASCII in both encodings or in neither, and then it has the same units in both. */
  lemma {:induction false} AsciiEncodings(s: string)
    ensures AsciiUnits(Encode(Utf8, s)) <==> AsciiUnits(Encode(Utf16, s))
    ensures AsciiUnits(Encode(Utf8, s)) ==> Encode(Utf8, s) == Encode(Utf16, s)
  {
    if s != [] {
      AsciiEncodings(s[1..]);
      forall e: Encoding
        ensures AsciiUnits(Encode(e, s)) <==> (s[0] as int < 128 && AsciiUnits(Encode(e, s[1..])))
      {
        AsciiHead(e, s);
      }
    }
  }

  lemma AsciiHead(e: Encoding, s: string)
    requires s != []
    ensures AsciiUnits(Encode(e, s)) <==> (s[0] as int < 128 && AsciiUnits(Encode(e, s[1..])))
  {
    var u, rest := Units(e, s[0]), Encode(e, s[1..]);
    assert Encode(e, s) == u + rest;
    assert (u + rest)[0] == u[0];
    assert forall i :: 0 <= i < |rest| ==> rest[i] == (u + rest)[i + |u|];
    if s[0] as int < 128 && AsciiUnits(rest) {
      assert forall i :: 1 <= i < |u + rest| ==> (u + rest)[i] == rest[i - 1];
    }
  }

  lemma SlugIsAscii(b: Key)
    requires IsApplicationSlug(b)
    ensures AsciiUnits(b)
  {
    ShapeIsSlug(b);
  }

  /** All three definitions accept exactly the same strings. */
  lemma SlugDefinitionsAgree(s: string)
    ensures IsApplicationSlug(Encode(Utf8, s)) <==> MatchesSchema(Encode(Utf16, s))
  {
    var b, u := Encode(Utf8, s), Encode(Utf16, s);
    AsciiEncodings(s);
    SplitIsSchema(b);
    SplitIsSchema(u);
    if IsApplicationSlug(b) { SlugIsAscii(b); }
    if IsApplicationSlug(u) { SlugIsAscii(u); }
  }

  // ----- Semantic versions -----

  predicate Digits(p: Key) { p != [] && forall i :: 0 <= i < |p| ==> IsDigit(p[i]) }

  predicate SuffixUnit(u: nat) { IsAlnum(u) || 65 <= u <= 90 || u == DOT || u == DASH }

  predicate IsSuffix(suffix: Key) { suffix != [] && forall i :: 0 <= i < |suffix| ==> SuffixUnit(suffix[i]) }

  /** `value.split_once('-')`, then three numbers and an optional suffix. */
  predicate IsContractSemver(b: Key)
  {
    var parts := Split(b, DASH);
    var core := Split(parts[0], DOT);
    var suffix := if |parts| == 1 then [] else Join(parts[1..], DASH);
    |core| == 3 && Digits(core[0]) && Digits(core[1]) && Digits(core[2])
    && (|parts| > 1 ==> IsSuffix(suffix))
  }

  /** The schema's regular expression `\d+\.\d+\.\d+(?:-[0-9A-Za-z.-]+)?`, anchored at both ends. */
  ghost predicate MatchesSemver(u: Key)
  {
    exists x, y, z, suffix :: IsSemver(u, x, y, z, suffix)
  }

  function Core(x: Key, y: Key, z: Key): Key { x + [DOT] + (y + [DOT] + z) }

  /** One way of reading a text as a version; an empty suffix stands for none. */
  predicate IsSemver(u: Key, x: Key, y: Key, z: Key, suffix: Key)
  {
    Digits(x) && Digits(y) && Digits(z)
    && (u == Core(x, y, z) || (IsSuffix(suffix) && u == Core(x, y, z) + [DASH] + suffix))
  }

  lemma JoinThree(x: Key, y: Key, z: Key)
    ensures Join([x, y, z], DOT) == Core(x, y, z)
  {
    assert [x, y, z][1..] == [y, z] && [y, z][1..] == [z];
    assert Join([y, z], DOT) == y + [DOT] + z;
  }

  /** Digits contain neither separator, so the core splits into its three numbers only. */
  lemma SplitCore(x: Key, y: Key, z: Key)
    requires Digits(x) && Digits(y) && Digits(z)
    ensures Split(Core(x, y, z), DOT) == [x, y, z] && DASH !in Core(x, y, z)
  {
    SplitAt(x, y + [DOT] + z, DOT);
    SplitAt(y, z, DOT);
    SplitNone(z, DOT);
    assert [y] + [z] == [y, z] && [x] + [y, z] == [x, y, z];
  }

  /** Splitting at the first dash and then at dots decides exactly the schema's expression. */
  lemma SemverIsSchema(b: Key)
    ensures IsContractSemver(b) <==> MatchesSemver(b)
  {
    var parts := Split(b, DASH);
    JoinSplit(b, DASH);
    if IsContractSemver(b) {
      var core := Split(parts[0], DOT);
      JoinSplit(parts[0], DOT);
      JoinThree(core[0], core[1], core[2]);
      assert core == [core[0], core[1], core[2]];
      assert parts[0] == Core(core[0], core[1], core[2]);
      assert b == if |parts| == 1 then parts[0] else parts[0] + [DASH] + Join(parts[1..], DASH);
      if |parts| == 1 {
        assert IsSemver(b, core[0], core[1], core[2], []);
      } else {
        var suffix := Join(parts[1..], DASH);
        assert IsSemver(b, core[0], core[1], core[2], suffix);
      }
    }
    if MatchesSemver(b) {
      var x, y, z, suffix :| IsSemver(b, x, y, z, suffix);
      SplitCore(x, y, z);
      if b == Core(x, y, z) {
        SplitNone(b, DASH);
      } else {
        SplitAt(Core(x, y, z), suffix, DASH);
        JoinSplit(suffix, DASH);
        assert parts[1..] == Split(suffix, DASH);
      }
    }
  }

  lemma SemverIsAscii(u: Key)
    requires MatchesSemver(u)
    ensures AsciiUnits(u)
  {
    var x, y, z, suffix :| IsSemver(u, x, y, z, suffix);
  }

  /** The agent, which reads bytes, and the schema, which reads UTF-16 units, accept the same versions. */
  lemma SemverDefinitionsAgree(s: string)
    ensures IsContractSemver(Encode(Utf8, s)) <==> MatchesSemver(Encode(Utf16, s))
  {
    var b, u := Encode(Utf8, s), Encode(Utf16, s);
    AsciiEncodings(s);
    SemverIsSchema(b);
    if IsContractSemver(b) { SemverIsAscii(b); }
    if MatchesSemver(u) { SemverIsAscii(u); }
  }
}
