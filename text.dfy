/** The few pieces of Python's `str` that the scripts rely on: `isspace`, `strip`, `split` and `startswith`. */
module Text {

  /** Python's `str.isspace()` for one character: what `str.strip()` with no argument removes. */
  predicate IsSpace(c: char)
  {
    ('\t' <= c <= '\r') || ('\U{1C}' <= c <= ' ') || c == '\U{85}' || c == '\U{A0}' ||
    c == '\U{1680}' || ('\U{2000}' <= c <= '\U{200A}') || c == '\U{2028}' || c == '\U{2029}' ||
    c == '\U{202F}' || c == '\U{205F}' || c == '\U{3000}'
  }

  /** The characters `str.strip` removes: whitespace when called without argument, or the given ones. */
  datatype StripChars = Whitespace | Chars(chars: set<char>)

  predicate Drops(strip: StripChars, c: char)
  {
    match strip
    case Whitespace => IsSpace(c)
    case Chars(chars) => c in chars
  }

  /** Removes the leading characters that satisfy `drop`. */
  function TrimLeft(s: string, drop: StripChars): (r: string)
    ensures |r| <= |s|
    ensures r != [] ==> !Drops(drop, r[0])
    decreases |s|
  {
    if s != [] && Drops(drop, s[0]) then TrimLeft(s[1..], drop) else s
  }

  /** What `TrimLeft` keeps is a suffix, and everything before it is dropped. */
  lemma {:induction false} TrimLeftSuffix(s: string, drop: StripChars)
    ensures TrimLeft(s, drop) == s[|s| - |TrimLeft(s, drop)|..]
    ensures forall i :: 0 <= i < |s| - |TrimLeft(s, drop)| ==> Drops(drop, s[i])
    decreases |s|
  {
    if s != [] && Drops(drop, s[0]) {
      TrimLeftSuffix(s[1..], drop);
      assert forall i :: 1 <= i < |s| ==> s[i] == s[1..][i - 1];
    }
  }

  /** Removes the trailing characters that satisfy `drop`. */
  function TrimRight(s: string, drop: StripChars): (r: string)
    ensures |r| <= |s|
    ensures r != [] ==> !Drops(drop, r[|r| - 1])
    decreases |s|
  {
    if s != [] && Drops(drop, s[|s| - 1]) then TrimRight(s[..|s| - 1], drop) else s
  }

  /** What `TrimRight` keeps is a prefix, and everything after it is dropped. */
  lemma {:induction false} TrimRightPrefix(s: string, drop: StripChars)
    ensures TrimRight(s, drop) == s[..|TrimRight(s, drop)|]
    ensures forall i :: |TrimRight(s, drop)| <= i < |s| ==> Drops(drop, s[i])
    decreases |s|
  {
    if s != [] && Drops(drop, s[|s| - 1]) {
      TrimRightPrefix(s[..|s| - 1], drop);
      assert forall i :: 0 <= i < |s| - 1 ==> s[i] == s[..|s| - 1][i];
    }
  }

  /** Python's `s.strip(chars)`: both ends, with `drop` naming the characters removed. */
  function Trim(s: string, drop: StripChars): (r: string)
    ensures r != [] ==> !Drops(drop, r[0]) && !Drops(drop, r[|r| - 1])
  {
    var left := TrimLeft(s, drop);
    var r := TrimRight(left, drop);
    TrimRightPrefix(left, drop);
    assert r != [] ==> r[0] == left[0];
    r
  }

  /** Trimming leaves nothing exactly when every character is one to drop. */
  lemma TrimEmpty(s: string, drop: StripChars)
    ensures Trim(s, drop) == [] <==> forall i :: 0 <= i < |s| ==> Drops(drop, s[i])
  {
    var left := TrimLeft(s, drop);
    TrimLeftSuffix(s, drop);
    TrimRightPrefix(left, drop);
    if left != [] {
      assert Drops(drop, s[|s| - |left|]) == Drops(drop, left[0]);
      assert !Drops(drop, left[|left| - 1]) ==> TrimRight(left, drop) == left;
    }
  }

  /** Trimming adds no character: what `s` lacks, the result lacks. */
  lemma TrimKeepsOut(s: string, drop: StripChars, c: char)
    requires c !in s
    ensures c !in Trim(s, drop)
  {
    var left := TrimLeft(s, drop);
    var r := TrimRight(left, drop);
    TrimLeftSuffix(s, drop);
    TrimRightPrefix(left, drop);
    assert r == s[|s| - |left|..][..|r|];
  }

  /** Python's `s.strip()`. */
  function Strip(s: string): string
  {
    Trim(s, Whitespace)
  }

  /** Stripping twice is stripping once. */
  lemma TrimIdempotent(s: string, drop: StripChars)
    ensures Trim(Trim(s, drop), drop) == Trim(s, drop)
  {
    var r := Trim(s, drop);
    assert TrimLeft(r, drop) == r;
    assert TrimRight(r, drop) == r;
  }

  lemma TrimLeftWrapped(q: char, piece: string, drop: StripChars)
    requires Drops(drop, q)
    requires piece != [] ==> !Drops(drop, piece[0])
    ensures TrimLeft([q] + piece + [q], drop) == (if piece == [] then [] else piece + [q])
  {
    var s := [q] + piece + [q];
    assert s[1..] == piece + [q];
    if piece == [] {
      assert [q][1..] == [];
    }
  }

  lemma TrimRightWrapped(q: char, piece: string, drop: StripChars)
    requires Drops(drop, q)
    requires piece != [] ==> !Drops(drop, piece[|piece| - 1])
    ensures TrimRight(piece + [q], drop) == piece
  {
    assert (piece + [q])[..|piece|] == piece;
  }

  /** Trimming a piece wrapped in dropped characters gives back the piece, when its own ends are kept. */
  lemma TrimWrapped(q: char, piece: string, drop: StripChars)
    requires Drops(drop, q)
    requires piece != [] ==> !Drops(drop, piece[0]) && !Drops(drop, piece[|piece| - 1])
    ensures Trim([q] + piece + [q], drop) == piece
  {
    TrimLeftWrapped(q, piece, drop);
    if piece != [] {
      TrimRightWrapped(q, piece, drop);
    }
  }

  /** Python's `s.startswith(prefix)`. */
  predicate StartsWith(s: string, prefix: string)
  {
    prefix <= s
  }

  /** Python's `sep.join(parts)` for a one-character separator. */
  function Join(parts: seq<string>, sep: char): string
    requires |parts| >= 1
  {
    if |parts| == 1 then parts[0] else parts[0] + [sep] + Join(parts[1..], sep)
  }

  /** Python's `s.split(sep)` for a one-character separator: never empty, the pieces hold no separator,
      and joining them back gives `s`. */
  function Split(s: string, sep: char): (parts: seq<string>)
    ensures |parts| >= 1
    ensures forall i :: 0 <= i < |parts| ==> sep !in parts[i]
    ensures Join(parts, sep) == s
    ensures |parts| == 1 <==> sep !in s
    decreases |s|
  {
    if s == [] then [[]]
    else
      var rest := Split(s[1..], sep);
      if s[0] == sep then
        var parts := [[]] + rest;
        assert parts[1..] == rest;
        parts
      else
        var parts := [[s[0]] + rest[0]] + rest[1..];
        assert |rest| > 1 ==> parts[1..] == rest[1..];
        assert s == [s[0]] + s[1..];
        parts
  }

  /** A character the joined text lacks is in no piece. */
  lemma {:induction false} JoinKeepsOut(parts: seq<string>, sep: char, i: nat, c: char)
    requires 0 <= i < |parts| && c !in Join(parts, sep)
    ensures c !in parts[i]
    decreases |parts|
  {
    if |parts| > 1 {
      assert Join(parts, sep) == parts[0] + ([sep] + Join(parts[1..], sep));
      if i > 0 {
        JoinKeepsOut(parts[1..], sep, i - 1, c);
      }
    }
  }

  /** A character `s` lacks is in no piece of `Split(s, sep)`. */
  lemma SplitKeepsOut(s: string, sep: char, i: nat, c: char)
    requires i < |Split(s, sep)| && c !in s
    ensures c !in Split(s, sep)[i]
  {
    JoinKeepsOut(Split(s, sep), sep, i, c);
  }

  lemma {:induction false} SplitNoSeparator(s: string, sep: char)
    requires sep !in s
    ensures Split(s, sep) == [s]
  {
  }

  lemma {:induction false} SplitAfterPiece(a: string, t: string, sep: char)
    requires sep !in a
    ensures Split(a + [sep] + t, sep) == [a] + Split(t, sep)
    decreases |a|
  {
    if a == [] {
      assert a + [sep] + t == [sep] + t;
      assert ([sep] + t)[1..] == t;
    } else {
      assert (a + [sep] + t)[1..] == a[1..] + [sep] + t;
      SplitAfterPiece(a[1..], t, sep);
      assert [a[0]] + a[1..] == a;
    }
  }

  /** Two separator-free pieces around one separator split back into the two pieces. */
  lemma SplitTwo(a: string, b: string, sep: char)
    requires sep !in a && sep !in b
    ensures Split(a + [sep] + b, sep) == [a, b]
  {
    SplitAfterPiece(a, b, sep);
    SplitNoSeparator(b, sep);
  }

  /** Splitting what was joined gives back the pieces: `split` and `join` are inverse on separator-free pieces. */
  lemma {:induction false} SplitJoin(parts: seq<string>, sep: char)
    requires |parts| >= 1
    requires forall i :: 0 <= i < |parts| ==> sep !in parts[i]
    ensures Split(Join(parts, sep), sep) == parts
    decreases |parts|
  {
    if |parts| == 1 {
      SplitNoSeparator(parts[0], sep);
    } else {
      SplitJoin(parts[1..], sep);
      SplitAfterPiece(parts[0], Join(parts[1..], sep), sep);
      assert [parts[0]] + parts[1..] == parts;
    }
  }
}
