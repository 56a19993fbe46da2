/**
 * The parts of java.lang.String the protocol relies on. A Java string is a
 * sequence of Unicode characters; `length()` counts UTF-16 code units and
 * `getBytes()` uses the platform charset, taken here to be UTF-8. The wire
 * format writes `length()` as the byte count, which is right only for ASCII.
 */
module JStrings {
  import opened Bytes

  type JString = seq<char>

  /** String.length(): UTF-16 code units (two for a character outside the BMP). */
  function Length(s: JString): (r: nat)
    ensures |s| <= r <= 2 * |s|
  {
    if s == [] then 0 else (if s[0] as int < 0x1_0000 then 1 else 2) + Length(s[1..])
  }

  /** UTF-8 encoding of one character. */
  function CharBytes(c: char): (r: seq<byte>)
    ensures 1 <= |r| <= 4
    ensures |r| == 1 <==> c as int < 0x80
    ensures c as int < 0x80 ==> r == [c as int]
    ensures c as int >= 0x1_0000 ==> |r| == 4
    ensures 0x80 <= c as int < 0x1_0000 ==> |r| >= 2
  {
    var v := c as int;
    if v < 0x80 then [v]
    else if v < 0x800 then [0xC0 + v / 0x40, 0x80 + v % 0x40]
    else if v < 0x1_0000 then [0xE0 + v / 0x1000, 0x80 + (v / 0x40) % 0x40, 0x80 + v % 0x40]
    else [0xF0 + v / 0x4_0000, 0x80 + (v / 0x1000) % 0x40, 0x80 + (v / 0x40) % 0x40, 0x80 + v % 0x40]
  }

  /** String.getBytes() */
  function GetBytes(s: JString): (r: seq<byte>)
    ensures |r| >= Length(s)
  {
    if s == [] then [] else CharBytes(s[0]) + GetBytes(s[1..])
  }

  predicate IsAsciiChar(c: char) { c as int < 0x80 }

  predicate IsAscii(s: JString) { forall i :: 0 <= i < |s| ==> IsAsciiChar(s[i]) }

  /**
   * new String(bytes): an ASCII byte is the character with that code. The
   * decoding of multi-byte sequences is not modelled: any other byte gives
   * the replacement character U+FFFD.
   */
  function NewString(b: seq<byte>): (r: JString)
    ensures |r| == |b|
  {
    seq(|b|, i requires 0 <= i < |b| => if b[i] < 0x80 then b[i] as char else '�')
  }

  /** For ASCII text the three notions of size agree and decoding inverts encoding. */
  lemma {:induction false} AsciiRoundTrip(s: JString)
    requires IsAscii(s)
    ensures Length(s) == |s| && |GetBytes(s)| == |s|
    ensures NewString(GetBytes(s)) == s
    ensures forall i :: 0 <= i < |s| ==> GetBytes(s)[i] == s[i] as int
  {
    if s != [] {
      assert IsAscii(s[1..]) by {
        forall i | 0 <= i < |s| - 1 ensures IsAsciiChar(s[1..][i]) { assert s[1..][i] == s[i + 1]; }
      }
      AsciiRoundTrip(s[1..]);
      assert IsAsciiChar(s[0]);
      assert GetBytes(s) == [s[0] as int] + GetBytes(s[1..]);
    }
  }

  /** For ASCII text `length()` counts the bytes and decoding the bytes gives the text back. */
  lemma AsciiDecode(s: JString)
    requires IsAscii(s)
    ensures Length(s) == |s| == |GetBytes(s)|
    ensures NewString(GetBytes(s)) == s
  {
    AsciiRoundTrip(s);
  }

  /** A string with a non-ASCII character has more bytes than `length()` says. */
  lemma {:induction false} NonAsciiLonger(s: JString)
    requires !IsAscii(s)
    ensures |GetBytes(s)| > Length(s)
  {
    if IsAsciiChar(s[0]) {
      assert !IsAscii(s[1..]) by {
        var i :| 0 <= i < |s| && !IsAsciiChar(s[i]);
        assert s[1..][i - 1] == s[i];
      }
      NonAsciiLonger(s[1..]);
    }
  }

  /** The characters Java's `\s` regex class matches. */
  predicate IsRegexSpace(c: char) {
    c == ' ' || c == '\t' || c == '\n' || c == '\U{B}' || c == '\U{C}' || c == '\r'
  }

  /** Character.isWhitespace restricted to ASCII: `\s` plus the four separator controls. */
  predicate IsWhitespace(c: char) {
    IsRegexSpace(c) || ('\U{1C}' <= c <= '\U{1F}')
  }

  function StripLeading(s: JString): (r: JString)
    ensures |r| <= |s| && r == s[|s| - |r|..]
    ensures r == [] || !IsWhitespace(r[0])
  {
    if s != [] && IsWhitespace(s[0]) then StripLeading(s[1..]) else s
  }

  function StripTrailing(s: JString): (r: JString)
    ensures r <= s
    ensures r == [] || !IsWhitespace(r[|r| - 1])
  {
    if s != [] && IsWhitespace(s[|s| - 1]) then StripTrailing(s[..|s| - 1]) else s
  }

  /** String.strip(): drops leading and trailing white space. */
  function Strip(s: JString): (r: JString)
    ensures r == [] || (!IsWhitespace(r[0]) && !IsWhitespace(r[|r| - 1]))
  {
    var t := StripTrailing(StripLeading(s));
    assert t != [] ==> t[0] == StripLeading(s)[0];
    t
  }

  function SkipSpaces(s: JString): (r: JString)
    ensures |r| <= |s|
    ensures r == [] || !IsRegexSpace(r[0])
  {
    if s != [] && IsRegexSpace(s[0]) then SkipSpaces(s[1..]) else s
  }

  /** The longest prefix without a `\s` character. */
  function TakeWord(s: JString): (r: JString)
    ensures r <= s
    ensures forall i :: 0 <= i < |r| ==> !IsRegexSpace(r[i])
    ensures |r| < |s| ==> IsRegexSpace(s[|r|])
  {
    if s != [] && !IsRegexSpace(s[0]) then [s[0]] + TakeWord(s[1..]) else []
  }

  /** The maximal runs of non-`\s` characters, in order. */
  function Tokens(s: JString): (r: seq<JString>)
    ensures forall k :: 0 <= k < |r| ==> r[k] != []
    decreases |s|
  {
    var t := SkipSpaces(s);
    if t == [] then [] else
      var w := TakeWord(t);
      [w] + Tokens(t[|w|..])
  }

  predicate HasRegexSpace(s: JString) { exists i :: 0 <= i < |s| && IsRegexSpace(s[i]) }

  /**
   * String.split("\\s+") with Java's rules: no match gives the string itself;
   * otherwise a leading empty piece when the string starts with white space,
   * and trailing empty pieces are dropped.
   */
  function SplitOnSpaces(s: JString): (r: seq<JString>)
  {
    if !HasRegexSpace(s) then [s]
    else if IsRegexSpace(s[0]) && Tokens(s) != [] then [[]] + Tokens(s)
    else Tokens(s)
  }

  /** The words of an input line: `line.strip().split("\\s+")`. */
  function Words(line: JString): (r: seq<JString>)
  {
    SplitOnSpaces(Strip(line))
  }

  lemma TokensOfNonSpaceStart(s: JString)
    requires s != [] && !IsRegexSpace(s[0])
    ensures Tokens(s) != [] && Tokens(s)[0] == TakeWord(s)
  {
  }

  /**
   * Splitting a stripped line always gives at least one word, and the first
   * word is empty only for a blank line.
   */
  lemma WordsNonEmpty(line: JString)
    ensures |Words(line)| >= 1
    ensures Words(line)[0] == [] <==> Strip(line) == []
  {
    var s := Strip(line);
    if s != [] {
      assert !IsRegexSpace(s[0]);
      TokensOfNonSpaceStart(s);
      if !HasRegexSpace(s) {
        assert Words(line) == [s];
      }
    }
  }

  /** String.toUpperCase() on ASCII letters (locale-specific rules are not modelled). */
  function ToUpperCase(s: JString): (r: JString)
    ensures |r| == |s|
    ensures forall i :: 0 <= i < |s| ==> r[i] == UpperChar(s[i])
  {
    if s == [] then [] else [UpperChar(s[0])] + ToUpperCase(s[1..])
  }

  /** Character.toUpperCase on one character, for the ASCII range. */
  function UpperChar(c: char): char
  {
    if 'a' <= c <= 'z' then (c as int - 32) as char else c
  }

  /** String.join(sep, parts) */
  function Join(parts: seq<JString>, sep: JString): (r: JString)
  {
    if parts == [] then [] else if |parts| == 1 then parts[0] else parts[0] + sep + Join(parts[1..], sep)
  }

  /** `String.join("", s.split("_"))` on a constant name: every underscore removed. */
  function RemoveUnderscores(s: JString): (r: JString)
  {
    if s == [] then [] else (if s[0] == '_' then [] else [s[0]]) + RemoveUnderscores(s[1..])
  }

  lemma {:induction false} RemoveUnderscoresKeeps(s: JString)
    requires '_' !in s
    ensures RemoveUnderscores(s) == s
  {
    if s != [] {
      assert '_' !in s[1..];
      RemoveUnderscoresKeeps(s[1..]);
    }
  }

  lemma {:induction false} RemoveUnderscoresConcat(a: JString, b: JString)
    ensures RemoveUnderscores(a + b) == RemoveUnderscores(a) + RemoveUnderscores(b)
  {
    if a != [] {
      assert (a + b)[0] == a[0];
      assert (a + b)[1..] == a[1..] + b;
      RemoveUnderscoresConcat(a[1..], b);
    } else {
      assert a + b == b;
    }
  }

  /** A leading underscore is dropped. */
  lemma UnderscoreDropped(b: JString)
    ensures RemoveUnderscores(['_'] + b) == RemoveUnderscores(b)
  {
    assert (['_'] + b)[1..] == b;
  }

  /** Removing the one underscore of `a_b` joins the two halves. */
  lemma RemoveUnderscoresJoin(a: JString, b: JString)
    requires '_' !in a && '_' !in b
    ensures RemoveUnderscores(a + ['_'] + b) == a + b
  {
    calc {
      RemoveUnderscores(a + ['_'] + b);
      { assert a + ['_'] + b == a + (['_'] + b); }
      RemoveUnderscores(a + (['_'] + b));
      { RemoveUnderscoresConcat(a, ['_'] + b); }
      RemoveUnderscores(a) + RemoveUnderscores(['_'] + b);
      { UnderscoreDropped(b); }
      RemoveUnderscores(a) + RemoveUnderscores(b);
      { RemoveUnderscoresKeeps(a); RemoveUnderscoresKeeps(b); }
      a + b;
    }
  }

  /** The result has no underscore left. */
  lemma {:induction false} RemoveUnderscoresClean(s: JString)
    ensures '_' !in RemoveUnderscores(s)
  {
    if s != [] {
      RemoveUnderscoresClean(s[1..]);
    }
  }
}
