/** String splitting, tokenising and comparison, as Rust's `str::split`, `String::cmp` do them. */
module Text {
  import opened Seqs

  /**
   * The pieces of `s` between non-overlapping occurrences of `sep`, scanned
   * left to right (Rust's `s.split(sep)` with a string pattern). There is
   * always at least one piece, possibly empty.
   */
  function Split(s: string, sep: string): (parts: seq<string>)
    requires sep != []
    ensures |parts| >= 1
    decreases |s|
  {
    if |s| < |sep| then [s]
    else if s[..|sep|] == sep then [""] + Split(s[|sep|..], sep)
    else
      var rest := Split(s[1..], sep);
      [[s[0]] + rest[0]] + rest[1..]
  }

  /** The pieces of `parts` glued together with `sep` between neighbours. */
  function Join(parts: seq<string>, sep: string): string
  {
    if parts == [] then ""
    else if |parts| == 1 then parts[0]
    else parts[0] + sep + Join(parts[1..], sep)
  }

  /** Joining a leading piece onto at least one more. */
  lemma JoinCons(x: string, rest: seq<string>, sep: string)
    requires rest != []
    ensures Join([x] + rest, sep) == x + sep + Join(rest, sep)
  {
    assert ([x] + rest)[1..] == rest;
  }

  /** A character put in front of the first piece ends up in front of the joined text. */
  lemma JoinPrefixFirst(c: char, rest: seq<string>, sep: string)
    requires rest != []
    ensures Join([[c] + rest[0]] + rest[1..], sep) == [c] + Join(rest, sep)
  {
    if |rest| > 1 {
      JoinCons([c] + rest[0], rest[1..], sep);
      JoinCons(rest[0], rest[1..], sep);
      assert rest == [rest[0]] + rest[1..];
    }
  }

  /** Splitting loses nothing: joining the pieces back gives the original text. */
  lemma {:induction false} JoinSplit(s: string, sep: string)
    requires sep != []
    ensures Join(Split(s, sep), sep) == s
    decreases |s|
  {
    if |s| < |sep| {
    } else if s[..|sep|] == sep {
      var rest := Split(s[|sep|..], sep);
      assert Split(s, sep) == [""] + rest;
      JoinSplit(s[|sep|..], sep);
      JoinCons("", rest, sep);
      assert s == s[..|sep|] + s[|sep|..];
    } else {
      var rest := Split(s[1..], sep);
      assert Split(s, sep) == [[s[0]] + rest[0]] + rest[1..];
      JoinSplit(s[1..], sep);
      JoinPrefixFirst(s[0], rest, sep);
      assert s == [s[0]] + s[1..];
    }
  }

  /** Text without the separator character is a single piece. */
  lemma {:induction false} SplitWithoutSeparator(s: string, c: char)
    requires c !in s
    ensures Split(s, [c]) == [s]
  {
    if s != [] {
      assert s[..1] != [c] by { assert s[..1][0] == s[0]; }
      SplitWithoutSeparator(s[1..], c);
      assert [s[0]] + s[1..] == s;
    }
  }

  /** With a one-character separator, each occurrence cuts the text independently of the rest. */
  lemma {:induction false} SplitAtSeparator(a: string, b: string, c: char)
    ensures Split(a + [c] + b, [c]) == Split(a, [c]) + Split(b, [c])
  {
    var s := a + [c] + b;
    if a == [] {
      assert s[..1] == [c];
      assert s[1..] == b;
    } else if a[0] == c {
      assert s[..1] == [c] && a[..1] == [c];
      assert s[1..] == a[1..] + [c] + b;
      SplitAtSeparator(a[1..], b, c);
    } else {
      assert s[..1] != [c] by { assert s[..1][0] == a[0]; }
      assert a[..1] != [c] by { assert a[..1][0] == a[0]; }
      assert s[1..] == a[1..] + [c] + b;
      SplitAtSeparator(a[1..], b, c);
      assert s[0] == a[0];
    }
  }

  /** No piece produced by a one-character separator contains that character. */
  lemma {:induction false} SplitPiecesAvoidSeparator(s: string, c: char)
    ensures forall p :: p in Split(s, [c]) ==> c !in p
  {
    if s != [] {
      SplitPiecesAvoidSeparator(s[1..], c);
      if s[..1] != [c] {
        assert s[0] != c by { assert s[..1][0] == s[0]; }
      }
    }
  }

  /** `sep` occurs in `t` starting at position `i`. */
  predicate MatchAt(t: string, i: int, sep: string)
  {
    0 <= i && i + |sep| <= |t| && t[i..i + |sep|] == sep
  }

  /** The first piece of a join is a prefix of the joined text. */
  lemma JoinFirstPrefix(parts: seq<string>, sep: string)
    requires |parts| >= 1
    ensures parts[0] <= Join(parts, sep)
  {
  }

  /**
   * A piece that is a prefix of a text not starting with `sep`, and that is one
   * character followed by a `sep`-free piece, is `sep`-free itself.
   */
  lemma ConsPieceAvoids(c: char, t: string, s: string, sep: string)
    requires [c] + t <= s && !MatchAt(s, 0, sep)
    requires forall i :: !MatchAt(t, i, sep)
    ensures forall i :: !MatchAt([c] + t, i, sep)
  {
    forall i ensures !MatchAt([c] + t, i, sep) {
      if 0 < i && i + |sep| <= |[c] + t| {
        assert t[i - 1..i - 1 + |sep|] == ([c] + t)[i..i + |sep|];
        assert !MatchAt(t, i - 1, sep);
      } else if i == 0 && |sep| <= |[c] + t| {
        assert ([c] + t)[..|sep|] == s[..|sep|];
      }
    }
  }

  /**
   * No piece of a split holds the separator anywhere, whatever its length:
   * every occurrence is consumed as a cut.
   */
  lemma {:induction false} SplitPiecesAvoidAnySeparator(s: string, sep: string)
    requires sep != []
    ensures forall p, i :: p in Split(s, sep) ==> !MatchAt(p, i, sep)
    decreases |s|
  {
    if |s| < |sep| {
      assert Split(s, sep) == [s];
    } else if s[..|sep|] == sep {
      SplitPiecesAvoidAnySeparator(s[|sep|..], sep);
      assert Split(s, sep) == [""] + Split(s[|sep|..], sep);
    } else {
      var rest := Split(s[1..], sep);
      assert Split(s, sep) == [[s[0]] + rest[0]] + rest[1..];
      SplitPiecesAvoidAnySeparator(s[1..], sep);
      JoinSplit(s[1..], sep);
      JoinFirstPrefix(rest, sep);
      assert s == [s[0]] + s[1..];
      ConsPieceAvoids(s[0], rest[0], s, sep);
      assert forall p :: p in rest[1..] ==> p in rest;
    }
  }

  /** Pieces that avoid a one-character separator come back unchanged when joined and re-split. */
  lemma {:induction false} SplitJoin(parts: seq<string>, c: char)
    requires |parts| >= 1
    requires forall p :: p in parts ==> c !in p
    ensures Split(Join(parts, [c]), [c]) == parts
  {
    if |parts| == 1 {
      SplitWithoutSeparator(parts[0], c);
    } else {
      SplitJoin(parts[1..], c);
      SplitAtSeparator(parts[0], Join(parts[1..], [c]), c);
      SplitWithoutSeparator(parts[0], c);
      assert parts == [parts[0]] + parts[1..];
    }
  }

  function NonEmpty(t: string): bool { t != [] }

  /** A token as a listing line holds it: non-empty and free of spaces. */
  predicate IsToken(t: string) { t != [] && ' ' !in t }

  /**
   * The non-empty pieces of `line` split on single spaces (Rust's
   * `split(" ")` followed by `retain(|x| x != "")`).
   */
  function Tokens(line: string): (ts: seq<string>)
    ensures forall t :: t in ts ==> IsToken(t)
  {
    SplitPiecesAvoidSeparator(line, ' ');
    Filter(Split(line, " "), NonEmpty)
  }

  /** A space cuts a line into two independently tokenised halves. */
  lemma TokensAtSpace(a: string, b: string)
    ensures Tokens(a + " " + b) == Tokens(a) + Tokens(b)
  {
    SplitAtSeparator(a, b, ' ');
    FilterAppend(Split(a, " "), Split(b, " "), NonEmpty);
  }

  /** A doubled space tokenises like a single one. */
  lemma DoubleSpaceIgnored(a: string, b: string)
    ensures Tokens(a + "  " + b) == Tokens(a + " " + b)
  {
    var sb := " " + b;
    assert a + "  " + b == a + " " + sb;
    calc {
      Tokens(a + "  " + b);
      Tokens(a + " " + sb);
      { TokensAtSpace(a, sb); }
      Tokens(a) + Tokens(sb);
      { LeadingSpaceIgnored(b); }
      Tokens(a) + Tokens(b);
      { TokensAtSpace(a, b); }
      Tokens(a + " " + b);
    }
  }

  /** A leading space does not change the tokens. */
  lemma LeadingSpaceIgnored(b: string)
    ensures Tokens(" " + b) == Tokens(b)
  {
    TokensAtSpace("", b);
    assert "" + " " + b == " " + b;
    assert Split("", " ") == [""];
  }

  /** A trailing space does not change the tokens. */
  lemma TrailingSpaceIgnored(a: string)
    ensures Tokens(a + " ") == Tokens(a)
  {
    TokensAtSpace(a, "");
    assert a + " " + "" == a + " ";
    assert Split("", " ") == [""];
  }

  /** Joining tokens with single spaces and tokenising gives the same tokens back. */
  lemma TokensOfJoin(ts: seq<string>)
    requires forall t :: t in ts ==> IsToken(t)
    ensures Tokens(Join(ts, " ")) == ts
  {
    if ts == [] {
      assert Split("", " ") == [""];
    } else {
      SplitJoin(ts, ' ');
      FilterKeepsAll(ts, NonEmpty);
    }
  }

  /** The outcome of comparing two values (Rust's `std::cmp::Ordering`). */
  datatype Ordering = Less | Equal | Greater {
    function Reverse(): Ordering {
      match this
      case Less => Greater
      case Equal => Equal
      case Greater => Less
    }
  }

  /** Lexicographic comparison of strings, character by character (Rust's `String::cmp`). */
  function Compare(a: string, b: string): Ordering
  {
    if a == [] then (if b == [] then Equal else Less)
    else if b == [] then Greater
    else if a[0] < b[0] then Less
    else if a[0] > b[0] then Greater
    else Compare(a[1..], b[1..])
  }

  /** Two strings compare `Equal` exactly when they are the same string. */
  lemma {:induction false} CompareEqual(a: string, b: string)
    ensures Compare(a, b) == Equal <==> a == b
  {
    if a != [] && b != [] && a[0] == b[0] {
      CompareEqual(a[1..], b[1..]);
      assert a == [a[0]] + a[1..] && b == [b[0]] + b[1..];
    }
  }

  /** Swapping the operands reverses the outcome. */
  lemma {:induction false} CompareAntisymmetric(a: string, b: string)
    ensures Compare(b, a) == Compare(a, b).Reverse()
  {
    if a != [] && b != [] && a[0] == b[0] {
      CompareAntisymmetric(a[1..], b[1..]);
    }
  }

  /** "Not greater" is transitive. */
  lemma {:induction false} CompareTransitive(a: string, b: string, c: string)
    requires Compare(a, b) != Greater && Compare(b, c) != Greater
    ensures Compare(a, c) != Greater
  {
    if a != [] && b != [] && c != [] && a[0] == b[0] == c[0] {
      CompareTransitive(a[1..], b[1..], c[1..]);
    }
  }

  /** "Less" followed by "not greater" is "less". */
  lemma CompareLessTransitive(a: string, b: string, c: string)
    requires Compare(a, b) == Less && Compare(b, c) != Greater
    ensures Compare(a, c) == Less
  {
    CompareTransitive(a, b, c);
    CompareEqual(a, c);
    if a == c {
      CompareAntisymmetric(a, b);
    }
  }
}
