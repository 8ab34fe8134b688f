/** Splitting a text at a separator and joining its parts, for bytes, code units and characters alike. */
module Splitting {
  /** `value.split(separator)`: never empty. */
  function Split<T(==)>(b: seq<T>, separator: T): (parts: seq<seq<T>>)
    ensures parts != []
  {
    if b == [] then [[]]
    else
      var rest := Split(b[1..], separator);
      if b[0] == separator then [[]] + rest else [[b[0]] + rest[0]] + rest[1..]
  }

  function Join<T>(parts: seq<seq<T>>, separator: T): seq<T>
    requires parts != []
  {
    if |parts| == 1 then parts[0] else parts[0] + [separator] + Join(parts[1..], separator)
  }

  lemma {:induction false} JoinSplit<T>(b: seq<T>, separator: T)
    ensures Join(Split(b, separator), separator) == b
  {
    if b != [] {
      JoinSplit(b[1..], separator);
      var rest := Split(b[1..], separator);
      if b[0] == separator {
        assert ([[]] + rest)[1..] == rest;
        assert Join(Split(b, separator), separator) == [separator] + b[1..];
      } else {
        assert ([[b[0]] + rest[0]] + rest[1..])[1..] == rest[1..];
        assert Join(Split(b, separator), separator) == [b[0]] + Join(rest, separator);
      }
    }
  }

  lemma {:induction false} SplitNone<T>(b: seq<T>, separator: T)
    requires separator !in b
    ensures Split(b, separator) == [b]
  {
    if b != [] {
      SplitNone(b[1..], separator);
      assert b == [b[0]] + b[1..];
    }
  }

  lemma SplitAt<T>(b: seq<T>, rest: seq<T>, separator: T)
    requires b != [] && separator !in b
    ensures Split(b + [separator] + rest, separator) == [b] + Split(rest, separator)
    decreases |b|
  {
    var whole := b + [separator] + rest;
    if |b| == 1 {
      assert whole[1..] == [separator] + rest && ([separator] + rest)[1..] == rest;
    } else {
      assert whole[1..] == b[1..] + [separator] + rest;
      SplitAt(b[1..], rest, separator);
    }
    assert b == [b[0]] + b[1..];
  }
}
