/** strings.Split, over any element type. */
module GoStrings {
  function Split<T(==)>(s: seq<T>, sep: T): (parts: seq<seq<T>>)
    ensures parts != []
  {
    if s == [] then [[]]
    else
      var rest := Split(s[1..], sep);
      if s[0] == sep then [[]] + rest else [[s[0]] + rest[0]] + rest[1..]
  }

  lemma {:induction false} SplitNoSep<T>(s: seq<T>, sep: T)
    requires sep !in s
    ensures Split(s, sep) == [s]
  {
    if s == [] {
      assert [s] == [[]];
    } else {
      SplitNoSep(s[1..], sep);
      assert [s[0]] + s[1..] == s;
    }
  }

  /** A separator-free prefix followed by the separator is the first part. */
  lemma {:induction false} SplitPrefix<T>(a: seq<T>, sep: T, rest: seq<T>)
    requires sep !in a
    ensures Split(a + [sep] + rest, sep) == [a] + Split(rest, sep)
  {
    var s := a + [sep] + rest;
    if a == [] {
      assert s[1..] == rest && [[]] == [a];
    } else {
      assert s[1..] == a[1..] + [sep] + rest;
      SplitPrefix(a[1..], sep, rest);
      assert [s[0]] + a[1..] == a;
      assert ([a[1..]] + Split(rest, sep))[1..] == Split(rest, sep);
    }
  }

  lemma {:induction false} PartsHaveNoSep<T>(s: seq<T>, sep: T)
    ensures forall p | p in Split(s, sep) :: sep !in p
  {
    if s != [] {
      PartsHaveNoSep(s[1..], sep);
      var rest := Split(s[1..], sep);
      assert rest[0] in rest;
    }
  }

  function Glue<T>(parts: seq<seq<T>>, sep: T): seq<T>
    requires parts != []
  {
    if |parts| == 1 then parts[0] else parts[0] + ([sep] + Glue(parts[1..], sep))
  }

  /** The parts with separators between them are the string again. */
  lemma {:induction false} SplitGlue<T>(s: seq<T>, sep: T)
    ensures Glue(Split(s, sep), sep) == s
  {
    if s != [] {
      var rest, parts := Split(s[1..], sep), Split(s, sep);
      SplitGlue(s[1..], sep);
      if s[0] == sep {
        assert parts[1..] == rest;
        assert [] + ([sep] + s[1..]) == s;
      } else if |rest| == 1 {
        assert [s[0]] + s[1..] == s;
      } else {
        assert parts[1..] == rest[1..];
        assert [s[0]] + rest[0] + ([sep] + Glue(rest[1..], sep)) == [s[0]] + (rest[0] + ([sep] + Glue(rest[1..], sep)));
      }
    }
  }
}
