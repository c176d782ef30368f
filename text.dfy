/** Optional values, for operations of the base library that either yield a value or throw. */
module Optional {

  datatype Option<+T> = None | Some(value: T)
}

/**
 * The string operations of the .NET base library that the controller and the
 * agent build their command handling from: `String.Split(char)`,
 * `String.Join(string, string[])`, `String.ToLower()`, `String.Trim()` and the
 * 7-bit `Encoding.ASCII` used on the wire.
 */
module Text {

  /** `Char.IsWhiteSpace`: the characters with the Unicode White_Space property. */
  predicate IsWhiteSpace(c: char) {
    ('\t' <= c <= '\r') || c == ' ' || c == '\U{0085}' || c == '\U{00A0}' || c == '\U{1680}'
    || ('\U{2000}' <= c <= '\U{200A}') || c == '\U{2028}' || c == '\U{2029}'
    || c == '\U{202F}' || c == '\U{205F}' || c == '\U{3000}'
  }

  predicate IsAsciiUpper(c: char) { 'A' <= c <= 'Z' }

  predicate IsAsciiLower(c: char) { 'a' <= c <= 'z' }

  /**
   * The lower case `String.ToLower()` gives one character under a current
   * culture that is neither Turkish nor the invariant culture, on a runtime
   * whose casing maps U+0130 (capital I with dot above) to 'i', as Mono's
   * does. Only the characters whose lower case is then an ASCII letter are
   * mapped: 'A'..'Z', U+0130 and U+212A (Kelvin sign). Every other character
   * is left as it is, which changes no comparison with the ASCII verbs.
   */
  function LowerChar(c: char): char {
    if IsAsciiUpper(c) then (c as int + 32) as char
    else if c == '\U{0130}' then 'i'
    else if c == '\U{212A}' then 'k'
    else c
  }

  /** `String.ToLower()`, character by character. */
  function ToLower(s: string): (r: string)
    ensures |r| == |s|
    ensures forall i :: 0 <= i < |s| ==> r[i] == LowerChar(s[i])
  {
    if s == [] then [] else [LowerChar(s[0])] + ToLower(s[1..])
  }

  /** What `Encoding.ASCII` does to one character on the way to bytes and back. */
  function AsciiChar(c: char): char {
    if c as int < 128 then c else '?'
  }

  predicate IsAscii(s: string) {
    forall i :: 0 <= i < |s| ==> s[i] as int < 128
  }

  /** `Encoding.ASCII.GetString(Encoding.ASCII.GetBytes(s))`. */
  function Ascii(s: string): (r: string)
    ensures |r| == |s| && IsAscii(r)
    ensures forall i :: 0 <= i < |s| ==> r[i] == AsciiChar(s[i])
  {
    if s == [] then [] else [AsciiChar(s[0])] + Ascii(s[1..])
  }

  /** A string that is already 7-bit comes through the ASCII encoding unchanged. */
  lemma AsciiKeepsAscii(s: string)
    requires IsAscii(s)
    ensures Ascii(s) == s
  {
  }

  /** Number of occurrences of `c` in `s`. */
  function Count(s: string, c: char): nat {
    if s == [] then 0 else (if s[0] == c then 1 else 0) + Count(s[1..], c)
  }

  /**
   * `s.Split(sep)`: the fields between separators, empty fields included, so
   * that there is always one field more than there are separators.
   */
  function Split(s: string, sep: char): (r: seq<string>)
    ensures |r| == Count(s, sep) + 1
  {
    if s == [] then [[]]
    else
      var rest := Split(s[1..], sep);
      if s[0] == sep then [[]] + rest
      else [[s[0]] + rest[0]] + rest[1..]
  }

  /** No field of a split holds the separator. */
  lemma {:induction false} SplitFieldsLackSeparator(s: string, sep: char)
    ensures forall i :: 0 <= i < |Split(s, sep)| ==> sep !in Split(s, sep)[i]
  {
    if s != [] {
      SplitFieldsLackSeparator(s[1..], sep);
      var rest := Split(s[1..], sep);
      if s[0] != sep {
        assert Split(s, sep)[0] == [s[0]] + rest[0];
        assert forall i :: 1 <= i < |rest| ==> Split(s, sep)[i] == rest[i];
      }
    }
  }

  /** `String.Join(sep, fields)`. */
  function Join(fields: seq<string>, sep: char): string {
    if |fields| == 0 then []
    else if |fields| == 1 then fields[0]
    else fields[0] + [sep] + Join(fields[1..], sep)
  }

  /** Joining the fields of a split with the same separator gives back the string. */
  lemma {:induction false} JoinSplit(s: string, sep: char)
    ensures Join(Split(s, sep), sep) == s
  {
    if s != [] {
      var rest := Split(s[1..], sep);
      JoinSplit(s[1..], sep);
      if s[0] == sep {
        assert Split(s, sep) == [[]] + rest;
        assert ([[]] + rest)[1..] == rest;
        assert s == [] + [sep] + s[1..];
      } else if |rest| == 1 {
        assert Split(s, sep) == [[s[0]] + rest[0]];
        assert s == [s[0]] + s[1..];
      } else {
        var fields := Split(s, sep);
        assert fields == [[s[0]] + rest[0]] + rest[1..];
        assert fields[1..] == rest[1..];
        assert Join(rest, sep) == rest[0] + [sep] + Join(rest[1..], sep);
        assert s == [s[0]] + s[1..];
      }
    }
  }

  /** The lines, each followed by the separator (as by a line terminator). */
  function Terminated(lines: seq<string>, sep: char): string {
    if lines == [] then [] else lines[0] + [sep] + Terminated(lines[1..], sep)
  }

  /**
   * Splitting separator-free lines, each terminated by the separator, gives
   * back the lines and one empty field after the last terminator.
   */
  lemma {:induction false} SplitTerminated(lines: seq<string>, sep: char)
    requires forall i :: 0 <= i < |lines| ==> sep !in lines[i]
    ensures Split(Terminated(lines, sep), sep) == lines + [[]]
  {
    if lines != [] {
      SplitTerminated(lines[1..], sep);
      SplitAfterField(lines[0], sep, Terminated(lines[1..], sep));
      assert lines == [lines[0]] + lines[1..];
    }
  }

  /** A string without the separator is one field. */
  lemma {:induction false} SplitWithoutSeparator(a: string, sep: char)
    requires sep !in a
    ensures Split(a, sep) == [a]
  {
    if a != [] {
      SplitWithoutSeparator(a[1..], sep);
      assert a == [a[0]] + a[1..];
    }
  }

  /** A separator-free prefix followed by the separator becomes the first field. */
  lemma {:induction false} SplitAfterField(a: string, sep: char, b: string)
    requires sep !in a
    ensures Split(a + [sep] + b, sep) == [a] + Split(b, sep)
  {
    var s := a + [sep] + b;
    if a == [] {
      assert s == [sep] + b;
      assert s[1..] == b;
    } else {
      assert s[0] == a[0];
      assert s[1..] == a[1..] + [sep] + b;
      SplitAfterField(a[1..], sep, b);
      assert a == [a[0]] + a[1..];
    }
  }

  /** Splitting a join of separator-free fields gives back the fields. */
  lemma {:induction false} SplitJoin(fields: seq<string>, sep: char)
    requires |fields| >= 1
    requires forall i :: 0 <= i < |fields| ==> sep !in fields[i]
    ensures Split(Join(fields, sep), sep) == fields
  {
    if |fields| == 1 {
      SplitWithoutSeparator(fields[0], sep);
    } else {
      SplitJoin(fields[1..], sep);
      SplitAfterField(fields[0], sep, Join(fields[1..], sep));
      assert fields == [fields[0]] + fields[1..];
    }
  }

  /**
   * The first field is the longest separator-free prefix: it is followed by
   * the separator unless it is the whole string.
   */
  lemma {:induction false} FirstFieldIsPrefix(s: string, sep: char)
    ensures var f := Split(s, sep)[0];
      |f| <= |s| && f == s[..|f|] && (|f| == |s| || s[|f|] == sep)
  {
    if s != [] && s[0] != sep {
      FirstFieldIsPrefix(s[1..], sep);
    }
  }

  /** The verb of a command line: its first space-delimited token, in lower case. */
  function Verb(line: string): string {
    ToLower(Split(line, ' ')[0])
  }

  /**
   * A token lowers to a word of ASCII lower-case letters exactly when it spells
   * that word with each letter in either case (or as a character whose lower
   * case is that letter).
   */
  lemma VerbIgnoresCase(token: string, word: string)
    requires forall i :: 0 <= i < |word| ==> IsAsciiLower(word[i])
    ensures ToLower(token) == word <==>
      |token| == |word| && forall i :: 0 <= i < |word| ==> LowerChar(token[i]) == word[i]
  {
  }

  /** `TrimStart()`: drops the leading white space. */
  function TrimStart(s: string): (r: string)
    ensures |r| <= |s| && r == s[|s| - |r|..]
    ensures forall i :: 0 <= i < |s| - |r| ==> IsWhiteSpace(s[i])
    ensures r == [] || !IsWhiteSpace(r[0])
  {
    if s != [] && IsWhiteSpace(s[0]) then TrimStart(s[1..]) else s
  }

  /** `TrimEnd()`: drops the trailing white space. */
  function TrimEnd(s: string): (r: string)
    ensures |r| <= |s| && r == s[..|r|]
    ensures forall i :: |r| <= i < |s| ==> IsWhiteSpace(s[i])
    ensures r == [] || !IsWhiteSpace(r[|r| - 1])
  {
    if s != [] && IsWhiteSpace(s[|s| - 1]) then TrimEnd(s[..|s| - 1]) else s
  }

  /** `String.Trim()`: drops the leading and the trailing white space. */
  function Trim(s: string): (r: string)
    ensures |r| <= |s|
    ensures r == [] || (!IsWhiteSpace(r[0]) && !IsWhiteSpace(r[|r| - 1]))
  {
    TrimEnd(TrimStart(s))
  }

  /**
   * What `Trim` keeps is a contiguous part of the string, and all it drops on
   * either side is white space.
   */
  lemma TrimKeepsInterior(s: string)
    ensures var r, lead := Trim(s), |s| - |TrimStart(s)|;
      lead + |r| <= |s| && r == s[lead..lead + |r|]
      && (forall i :: 0 <= i < lead ==> IsWhiteSpace(s[i]))
      && (forall i :: lead + |r| <= i < |s| ==> IsWhiteSpace(s[i]))
  {
    var t := TrimStart(s);
    var r := TrimEnd(t);
    var lead := |s| - |t|;
    assert r == t[..|r|];
    forall i | lead + |r| <= i < |s|
      ensures IsWhiteSpace(s[i])
    {
      assert s[i] == t[i - lead];
    }
  }
}
