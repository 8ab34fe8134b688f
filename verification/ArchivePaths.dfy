/** The agent's rules for the paths inside a package, against those of the archive writer. */
module ArchivePaths {
  import opened Wrappers
  import opened Splitting
  import opened ZipFormat
  import opened ZipWriter

  /** `to_ascii_uppercase`. */
  function AsciiUpper(s: string): string
  {
    seq(|s|, i requires 0 <= i < |s| => if 'a' <= s[i] <= 'z' then s[i] - 'a' + 'A' else s[i])
  }

  function Stem(component: string): string { Split(component, '.')[0] }

  predicate NamesClock(component: string) { AsciiUpper(Stem(component)) == "CLOCK$" }

  predicate ComponentAccepted(component: string)
    requires component != ""
  {
    var last := component[|component| - 1];
    component != "." && component != ".." && ':' !in component && last != '.' && last != ' '
    && !Reserved(AsciiUpper(Stem(component))) && !NamesClock(component)
  }

  function Components(name: string): seq<string> { NonEmpty(Split(name, '/')) }

  predicate Accepted(name: string)
  {
    '\\' !in name && forall c :: c in Components(name) && c != "" ==> ComponentAccepted(c)
  }

  /** `validate_portable_archive_path`. */
  method ValidatePortableArchivePath(name: string) returns (ok: bool)
    ensures ok <==> Accepted(name)
  {
    if '\\' in name { return false; }
    var components := Split(name, '/');
    NonEmptyMembers(components);
    for n := 0 to |components|
      invariant forall k :: 0 <= k < n && components[k] != "" ==> ComponentAccepted(components[k])
    {
      var component := components[n];
      if component != "" && !ComponentAccepted(component) { return false; }
    }
    ok := true;
  }

  lemma {:induction false} NonEmptyMembers(parts: seq<string>)
    ensures forall c :: c in NonEmpty(parts) <==> c in parts && c != ""
  {
    if parts != [] {
      NonEmptyMembers(parts[1..]);
      assert parts == [parts[0]] + parts[1..];
    }
  }

  /** A character other than the separator is in one of the parts. */
  lemma {:induction false} InSomePart(text: string, separator: char, c: char)
    requires c in text && c != separator
    ensures exists part :: part in Split(text, separator) && c in part
  {
    var rest := Split(text[1..], separator);
    if text[0] == c {
      assert c in Split(text, separator)[0];
    } else {
      InSomePart(text[1..], separator, c);
      var part :| part in rest && c in part;
      var k :| 0 <= k < |rest| && rest[k] == part;
      var parts := Split(text, separator);
      if text[0] == separator {
        assert parts[k + 1] == part;
      } else {
        assert if k == 0 then parts[0] == [text[0]] + part else parts[k] == part;
        assert c in parts[k];
      }
    }
  }

  lemma {:induction false} ComponentsErrorNone(casing: Casing, components: seq<string>)
    ensures ComponentsError(casing, components).None?
       <==> forall c :: c in components && c != "" ==> ComponentError(casing, c).None?
  {
    if components != [] {
      ComponentsErrorNone(casing, components[1..]);
      assert components == [components[0]] + components[1..];
    }
  }

  /** JavaScript's and Rust's upper case recognise the same device names. */
  ghost predicate DeviceCasing(casing: Casing)
  {
    forall stem :: Reserved(casing.upper(stem)) <==> Reserved(AsciiUpper(stem))
  }

  /** What the writer asks beyond the agent's rules for components. */
  predicate Plain(name: string)
  {
    name != "" && '\0' !in name && name[0] != '/' && Components(name) != []
  }

  lemma ComponentsAgree(casing: Casing, name: string)
    requires DeviceCasing(casing)
    ensures (forall c :: c in Components(name) && c != "" ==> ComponentAccepted(c))
       <==> "." !in Components(name) && ".." !in Components(name) && ComponentsError(casing, Components(name)).None?
            && forall c :: c in Components(name) ==> !NamesClock(c)
  {
    var components := Components(name);
    NonEmptyMembers(Split(name, '/'));
    ComponentsErrorNone(casing, components);
    forall c | c in components
      ensures ComponentAccepted(c)
         <==> c != "." && c != ".." && ComponentError(casing, c).None? && !NamesClock(c)
    {
      assert Reserved(casing.upper(Stem(c))) <==> Reserved(AsciiUpper(Stem(c)));
    }
  }

  /** A drive letter puts a colon into a component. */
  lemma NoDriveLetter(name: string)
    requires Accepted(name)
    ensures ':' !in name
  {
    NonEmptyMembers(Split(name, '/'));
    forall part | part in Split(name, '/') ensures ':' !in part {
      if part != "" { assert part in Components(name); }
    }
    if ':' in name { InSomePart(name, '/', ':'); }
  }

  /** The two rules agree on every plain name, except that only the agent reserves `CLOCK$`. */
  lemma PathsAgree(casing: Casing, name: string)
    requires DeviceCasing(casing)
    ensures Accepted(name) && Plain(name)
       <==> PathError(casing, name).None? && forall c :: c in Components(name) ==> !NamesClock(c)
  {
    hide NonEmpty, ComponentsError, ComponentAccepted, NamesClock;
    ComponentsAgree(casing, name);
    if Accepted(name) { NoDriveLetter(name); }
  }

  /** Of the archives that can be packed, the agent accepts the paths of exactly those without a `CLOCK$` name. */
  lemma PackedIsAcceptedIff(casing: Casing, input: seq<Entry>)
    requires DeviceCasing(casing) && Packable(casing, input)
    ensures (forall e :: e in input ==> Accepted(e.name))
       <==> forall e, c :: e in input && c in Components(e.name) ==> !NamesClock(c)
  {
    hide PathError, Accepted, Plain, Components, NamesClock;
    forall e | e in input
      ensures Accepted(e.name) <==> forall c :: c in Components(e.name) ==> !NamesClock(c)
    {
      PathsAgree(casing, e.name);
      PackedIsPlain(casing, e.name);
    }
  }

  lemma PackedIsPlain(casing: Casing, name: string)
    requires PathError(casing, name).None?
    ensures Plain(name)
  {
  }

  const CLOCK: string := "CLOCK$"

  lemma ClockParts()
    ensures Split(CLOCK, '/') == [CLOCK] && Components(CLOCK) == [CLOCK] && Stem(CLOCK) == CLOCK
  {
    SplitNone(CLOCK, '/');
    SplitNone(CLOCK, '.');
    assert [CLOCK][1..] == [];
  }

  lemma ClockUpper()
    ensures AsciiUpper(CLOCK) == CLOCK && !Reserved(CLOCK)
  {
  }

  lemma ClockPacks(casing: Casing)
    requires DeviceCasing(casing)
    ensures ComponentError(casing, CLOCK).None?
  {
    hide Split, AsciiUpper, Reserved;
    ClockParts();
    ClockUpper();
    assert Reserved(casing.upper(CLOCK)) <==> Reserved(AsciiUpper(CLOCK));
  }

  /** There is such a name: it packs and is refused when the package is installed. */
  lemma ClockIsRefused(casing: Casing)
    requires DeviceCasing(casing)
    ensures PathError(casing, CLOCK).None? && !Accepted(CLOCK)
  {
    hide Split, NonEmpty, AsciiUpper, Reserved, ComponentError;
    ClockParts();
    ClockUpper();
    ClockPacks(casing);
    ComponentsErrorNone(casing, [CLOCK]);
    assert CLOCK in Components(CLOCK) && NamesClock(CLOCK);
  }
}
