/** `str::split` on one separator character, its inverse `Join`, and
    `str::replace(sep, "")`, as the importers use them. */
module Text {

  /** The pieces of `s` between occurrences of `sep`, like Rust's `s.split(sep)`:
      always at least one piece (the empty string yields `[""]`). */
  function Split(s: string, sep: char): (parts: seq<string>)
    ensures |parts| >= 1
    ensures forall i :: 0 <= i < |parts| ==> sep !in parts[i]
    ensures Join(parts, sep) == s
  {
    if s == [] then [""]
    else
      var rest := Split(s[1..], sep);
      if s[0] == sep then [""] + rest
      else
        assert s == [s[0]] + s[1..];
        [[s[0]] + rest[0]] + rest[1..]
  }

  /** The pieces glued back together with `sep` between neighbours. */
  function Join(parts: seq<string>, sep: char): string
    requires |parts| >= 1
  {
    if |parts| == 1 then parts[0] else parts[0] + [sep] + Join(parts[1..], sep)
  }

  /** Splitting what `Join` produced gives the pieces back, provided no piece
      contains the separator. */
  lemma {:induction false} SplitJoin(parts: seq<string>, sep: char)
    requires |parts| >= 1
    requires forall i :: 0 <= i < |parts| ==> sep !in parts[i]
    ensures Split(Join(parts, sep), sep) == parts
  {
    if |parts| == 1 {
      SplitNoSep(parts[0], sep);
    } else {
      SplitJoin(parts[1..], sep);
      SplitPrefix(parts[0], Join(parts[1..], sep), sep);
      assert [parts[0]] + parts[1..] == parts;
    }
  }

  /** A string free of the separator is one piece. */
  lemma {:induction false} SplitNoSep(s: string, sep: char)
    requires sep !in s
    ensures Split(s, sep) == [s]
  {
    if s != [] {
      SplitNoSep(s[1..], sep);
      assert s == [s[0]] + s[1..];
    }
  }

  /** A separator-free prefix followed by the separator becomes the first piece. */
  lemma {:induction false} SplitPrefix(p: string, rest: string, sep: char)
    requires sep !in p
    ensures Split(p + [sep] + rest, sep) == [p] + Split(rest, sep)
  {
    if p == [] {
      assert p + [sep] + rest == [sep] + rest;
      assert ([sep] + rest)[1..] == rest;
    } else {
      var tail := p[1..] + [sep] + rest;
      assert p + [sep] + rest == [p[0]] + tail;
      SplitPrefix(p[1..], rest, sep);
      SplitCons(p[0], tail, sep);
      assert [p[0]] + p[1..] == p;
    }
  }

  /** A character other than the separator joins the first piece. */
  lemma SplitCons(c: char, s: string, sep: char)
    requires c != sep
    ensures Split([c] + s, sep) == [[c] + Split(s, sep)[0]] + Split(s, sep)[1..]
  {
    assert ([c] + s)[1..] == s;
  }

  /** There is one more piece than there are separators. */
  lemma {:induction false} SplitCount(s: string, sep: char)
    ensures |Split(s, sep)| == multiset(s)[sep] + 1
  {
    if s != [] {
      SplitCount(s[1..], sep);
      SplitLength(s, sep);
      CountCons(s, sep);
    }
  }

  /** The occurrences of `c` in `s` are those in its tail plus its head's. */
  lemma CountCons(s: string, c: char)
    requires s != []
    ensures multiset(s)[c] == multiset(s[1..])[c] + if s[0] == c then 1 else 0
  {
    assert s == [s[0]] + s[1..];
  }

  /** A leading separator starts a new piece; any other character does not. */
  lemma SplitLength(s: string, sep: char)
    requires s != []
    ensures |Split(s, sep)| == |Split(s[1..], sep)| + if s[0] == sep then 1 else 0
  {
  }

  /** `s` with every `sep` removed, like Rust's `s.replace(sep, "")`. */
  function Without(s: string, sep: char): (r: string)
    ensures sep !in r
    ensures |r| <= |s|
    ensures forall c :: c != sep ==> multiset(r)[c] == multiset(s)[c]
  {
    if s == [] then []
    else
      assert s == [s[0]] + s[1..];
      if s[0] == sep then Without(s[1..], sep) else [s[0]] + Without(s[1..], sep)
  }

  /** A string free of the separator loses nothing. */
  lemma {:induction false} WithoutAbsent(s: string, sep: char)
    requires sep !in s
    ensures Without(s, sep) == s
  {
    if s != [] {
      WithoutAbsent(s[1..], sep);
      assert s == [s[0]] + s[1..];
    }
  }

  /** Concatenation of the pieces, with nothing between them. */
  function Concat(parts: seq<string>): string
  {
    if parts == [] then [] else parts[0] + Concat(parts[1..])
  }

  /** Removing every separator is the same as splitting and concatenating the pieces. */
  lemma {:induction false} WithoutIsConcatOfSplit(s: string, sep: char)
    ensures Without(s, sep) == Concat(Split(s, sep))
  {
    if s != [] {
      WithoutIsConcatOfSplit(s[1..], sep);
      var rest := Split(s[1..], sep);
      if s[0] == sep {
        assert ([""] + rest)[1..] == rest;
      } else {
        var parts := [[s[0]] + rest[0]] + rest[1..];
        assert parts[1..] == rest[1..];
        assert Concat(rest) == rest[0] + Concat(rest[1..]);
      }
    }
  }
}
