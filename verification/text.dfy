/** String primitives of the two runtimes the product application runs on:
    JavaScript in the browser and PHP on the server. Both trim, change case and
    measure text, but with different character sets and length units, so each
    primitive is modelled per runtime and the places where they agree are proved. */
module Text {

  /** ECMAScript WhiteSpace and LineTerminator: the characters String.prototype.trim
      strips and the regular-expression class \s matches. */
  predicate IsJsSpace(c: char) {
    || c == '\t' || c == '\n' || c == '\U{000B}' || c == '\U{000C}' || c == '\r' || c == ' '
    || c == '\U{00A0}' || c == '\U{1680}' || ('\U{2000}' <= c <= '\U{200A}')
    || c == '\U{2028}' || c == '\U{2029}' || c == '\U{202F}' || c == '\U{205F}'
    || c == '\U{3000}' || c == '\U{FEFF}'
  }

  /** The default character list of PHP's trim: space, tab, newline, carriage return, NUL, vertical tab. */
  predicate IsPhpSpace(c: char) {
    c == ' ' || c == '\t' || c == '\n' || c == '\r' || c == '\0' || c == '\U{000B}'
  }

  /** A character on which both runtimes behave alike: ASCII, and neither NUL (trimmed by PHP
      only) nor form feed (trimmed by JavaScript only). */
  predicate IsPortable(c: char) {
    c < '\U{0080}' && c != '\0' && c != '\U{000C}'
  }

  predicate AllPortable(s: string) {
    forall k | 0 <= k < |s| :: IsPortable(s[k])
  }

  lemma PortableSpacesAgree(c: char)
    requires IsPortable(c)
    ensures IsJsSpace(c) <==> IsPhpSpace(c)
  {
  }

  // ---------------------------------------------------------------- trimming

  /** Drops the leading characters that satisfy isSpace. */
  function TrimStart(s: string, isSpace: char -> bool): (r: string)
    ensures |r| <= |s|
  {
    if s != [] && isSpace(s[0]) then TrimStart(s[1..], isSpace) else s
  }

  /** TrimStart keeps a suffix of s that does not start with a space. */
  lemma {:induction false} TrimStartShape(s: string, isSpace: char -> bool)
    ensures var r := TrimStart(s, isSpace);
      r == s[|s| - |r|..] && (r != [] ==> !isSpace(r[0]))
    decreases |s|
  {
    if s != [] && isSpace(s[0]) {
      TrimStartShape(s[1..], isSpace);
    }
  }

  /** What TrimStart drops is spaces only. */
  lemma {:induction false} TrimStartDropsSpaces(s: string, isSpace: char -> bool)
    ensures forall k | 0 <= k < |s| - |TrimStart(s, isSpace)| :: isSpace(s[k])
    decreases |s|
  {
    if s != [] && isSpace(s[0]) {
      TrimStartDropsSpaces(s[1..], isSpace);
    }
  }

  /** Drops the trailing characters that satisfy isSpace. */
  function TrimEnd(s: string, isSpace: char -> bool): (r: string)
    ensures |r| <= |s|
  {
    if s != [] && isSpace(s[|s| - 1]) then TrimEnd(s[..|s| - 1], isSpace) else s
  }

  /** TrimEnd keeps a prefix of s that does not end with a space. */
  lemma {:induction false} TrimEndShape(s: string, isSpace: char -> bool)
    ensures var r := TrimEnd(s, isSpace);
      r == s[..|r|] && (r != [] ==> !isSpace(r[|r| - 1]))
    decreases |s|
  {
    if s != [] && isSpace(s[|s| - 1]) {
      TrimEndShape(s[..|s| - 1], isSpace);
    }
  }

  /** What TrimEnd drops is spaces only. */
  lemma {:induction false} TrimEndDropsSpaces(s: string, isSpace: char -> bool)
    ensures forall k | |TrimEnd(s, isSpace)| <= k < |s| :: isSpace(s[k])
    decreases |s|
  {
    if s != [] && isSpace(s[|s| - 1]) {
      TrimEndDropsSpaces(s[..|s| - 1], isSpace);
    }
  }

  /** Both ends stripped. */
  function Trim(s: string, isSpace: char -> bool): (r: string)
    ensures |r| <= |s|
  {
    TrimEnd(TrimStart(s, isSpace), isSpace)
  }

  /** The trimmed text neither starts nor ends with a space. */
  lemma TrimEnds(s: string, isSpace: char -> bool)
    ensures var r := Trim(s, isSpace);
      r != [] ==> !isSpace(r[0]) && !isSpace(r[|r| - 1])
  {
    var t := TrimStart(s, isSpace);
    var r := TrimEnd(t, isSpace);
    TrimStartShape(s, isSpace);
    TrimEndShape(t, isSpace);
    if r != [] {
      assert r[0] == t[0];
    }
  }

  /** The trimmed text is empty exactly when s is made of spaces only. */
  lemma TrimEmptyIff(s: string, isSpace: char -> bool)
    ensures Trim(s, isSpace) == [] <==> forall k | 0 <= k < |s| :: isSpace(s[k])
  {
    var t := TrimStart(s, isSpace);
    TrimStartShape(s, isSpace);
    TrimStartDropsSpaces(s, isSpace);
    TrimEndDropsSpaces(t, isSpace);
  }

  /** r occurs in s starting at index i. */
  predicate OccursAt(r: string, s: string, i: int) {
    0 <= i <= |s| - |r| && s[i..i + |r|] == r
  }

  /** The trimmed text is a contiguous piece of s. */
  lemma TrimIsSlice(s: string, isSpace: char -> bool)
    ensures exists i :: OccursAt(Trim(s, isSpace), s, i)
  {
    var t := TrimStart(s, isSpace);
    var r := TrimEnd(t, isSpace);
    var i := |s| - |t|;
    TrimStartShape(s, isSpace);
    TrimEndShape(t, isSpace);
    assert r == Trim(s, isSpace) && 0 <= i <= |s| - |r|;
    assert OccursAt(r, s, i);
  }

  /** String.prototype.trim. */
  function JsTrim(s: string): string {
    Trim(s, IsJsSpace)
  }

  /** PHP trim with its default character list. */
  function PhpTrim(s: string): string {
    Trim(s, IsPhpSpace)
  }

  lemma {:induction false} TrimStartAgrees(s: string, p: char -> bool, q: char -> bool)
    requires forall k | 0 <= k < |s| :: p(s[k]) == q(s[k])
    ensures TrimStart(s, p) == TrimStart(s, q)
    decreases |s|
  {
    if s != [] && p(s[0]) {
      TrimStartAgrees(s[1..], p, q);
    }
  }

  lemma {:induction false} TrimEndAgrees(s: string, p: char -> bool, q: char -> bool)
    requires forall k | 0 <= k < |s| :: p(s[k]) == q(s[k])
    ensures TrimEnd(s, p) == TrimEnd(s, q)
    decreases |s|
  {
    if s != [] && p(s[|s| - 1]) {
      TrimEndAgrees(s[..|s| - 1], p, q);
    }
  }

  /** Trimming depends only on how the space predicate classifies the characters present. */
  lemma TrimAgrees(s: string, p: char -> bool, q: char -> bool)
    requires forall k | 0 <= k < |s| :: p(s[k]) == q(s[k])
    ensures Trim(s, p) == Trim(s, q)
  {
    TrimStartAgrees(s, p, q);
    var t := TrimStart(s, p);
    TrimStartShape(s, p);
    assert forall k | 0 <= k < |t| :: t[k] == s[|s| - |t| + k];
    TrimEndAgrees(t, p, q);
  }

  /** On portable text JavaScript's trim and PHP's trim give the same string. */
  lemma PortableTrimsAgree(s: string)
    requires AllPortable(s)
    ensures JsTrim(s) == PhpTrim(s)
  {
    forall k | 0 <= k < |s| ensures IsJsSpace(s[k]) == IsPhpSpace(s[k]) {
      PortableSpacesAgree(s[k]);
    }
    TrimAgrees(s, IsJsSpace, IsPhpSpace);
  }

  /** Text with no space at either end is left as it is. */
  lemma TrimUnpadded(s: string, p: char -> bool)
    requires s != [] && !p(s[0]) && !p(s[|s| - 1])
    ensures Trim(s, p) == s
  {
  }

  /** One space on each side of such a text is removed. */
  lemma TrimPadded(s: string, p: char -> bool, c: char)
    requires s != [] && !p(s[0]) && !p(s[|s| - 1]) && p(c)
    ensures Trim([c] + s + [c], p) == s
  {
    var padded := [c] + s + [c];
    var t := s + [c];
    assert padded[0] == c && padded[1..] == t;
    assert t[0] == s[0];
    assert TrimStart(t, p) == t;
    assert TrimStart(padded, p) == t;
    assert t[|t| - 1] == c && t[..|t| - 1] == s;
    assert TrimEnd(s, p) == s;
    assert TrimEnd(t, p) == s;
  }

  lemma {:induction false} TrimStartIdempotent(s: string, p: char -> bool)
    ensures TrimStart(TrimStart(s, p), p) == TrimStart(s, p)
  {
    TrimStartShape(s, p);
  }

  /** Trimming twice is trimming once. */
  lemma TrimIdempotent(s: string, p: char -> bool)
    ensures Trim(Trim(s, p), p) == Trim(s, p)
  {
    var r := Trim(s, p);
    TrimEnds(s, p);
    if r != [] {
      assert TrimStart(r, p) == r;
      assert TrimEnd(r, p) == r;
    }
  }

  // ---------------------------------------------------------------- case mapping

  /** String.prototype.toUpperCase on one character, for the ASCII and Latin-1 letters
      whose upper case is a single Latin-1 character; every other character is kept. */
  function UpperChar(c: char): char {
    if 'a' <= c <= 'z' || ('\U{00E0}' <= c <= '\U{00FE}' && c != '\U{00F7}') then
      (c as int - 32) as char
    else
      c
  }

  /** String.prototype.toLowerCase on one character, for the ASCII and Latin-1 capitals. */
  function LowerChar(c: char): char {
    if 'A' <= c <= 'Z' || ('\U{00C0}' <= c <= '\U{00DE}' && c != '\U{00D7}') then
      (c as int + 32) as char
    else
      c
  }

  /** Text whose every character the two maps above treat as JavaScript does: characters
      below U+0100 other than the three whose case forms leave Latin-1 or are two characters
      (U+00DF, whose upper case is "SS", U+00B5 and U+00FF). Outside it JavaScript also maps
      by context: a capital sigma at the end of a word lowers to the final sigma. */
  predicate CaseMapExact(s: string) {
    forall k | 0 <= k < |s| :: s[k] < '\U{0100}' && s[k] !in {'\U{00DF}', '\U{00B5}', '\U{00FF}'}
  }

  /** PHP 8 strtoupper: ASCII letters only. */
  function AsciiUpperChar(c: char): char {
    if 'a' <= c <= 'z' then (c as int - 32) as char else c
  }

  function ToUpper(s: string): (r: string)
    ensures |r| == |s|
  {
    if s == [] then [] else [UpperChar(s[0])] + ToUpper(s[1..])
  }

  function ToLower(s: string): (r: string)
    ensures |r| == |s|
  {
    if s == [] then [] else [LowerChar(s[0])] + ToLower(s[1..])
  }

  function AsciiUpper(s: string): (r: string)
    ensures |r| == |s|
  {
    if s == [] then [] else [AsciiUpperChar(s[0])] + AsciiUpper(s[1..])
  }

  /** toUpperCase maps each character on its own. */
  lemma {:induction false} ToUpperAt(s: string)
    ensures forall k | 0 <= k < |s| :: ToUpper(s)[k] == UpperChar(s[k])
    decreases |s|
  {
    if s != [] {
      ToUpperAt(s[1..]);
    }
  }

  /** toLowerCase maps each character on its own. */
  lemma {:induction false} ToLowerAt(s: string)
    ensures forall k | 0 <= k < |s| :: ToLower(s)[k] == LowerChar(s[k])
    decreases |s|
  {
    if s != [] {
      ToLowerAt(s[1..]);
    }
  }

  /** strtoupper maps each character on its own. */
  lemma {:induction false} AsciiUpperAt(s: string)
    ensures forall k | 0 <= k < |s| :: AsciiUpper(s)[k] == AsciiUpperChar(s[k])
    decreases |s|
  {
    if s != [] {
      AsciiUpperAt(s[1..]);
    }
  }

  /** Upper-casing, checked character by character. */
  lemma UpperOf(s: string, u: string)
    requires |s| == |u| && forall k | 0 <= k < |s| :: UpperChar(s[k]) == u[k]
    ensures ToUpper(s) == u
  {
    ToUpperAt(s);
  }

  /** Changing case never turns a space into a non-space or back. */
  lemma UpperKeepsSpaces(c: char)
    ensures IsJsSpace(UpperChar(c)) == IsJsSpace(c)
  {
  }

  lemma {:induction false} TrimStartUpper(s: string)
    ensures TrimStart(ToUpper(s), IsJsSpace) == ToUpper(TrimStart(s, IsJsSpace))
    decreases |s|
  {
    if s != [] {
      UpperKeepsSpaces(s[0]);
      assert ToUpper(s)[1..] == ToUpper(s[1..]);
      if IsJsSpace(s[0]) {
        TrimStartUpper(s[1..]);
      }
    }
  }

  lemma {:induction false} TrimEndUpper(s: string)
    ensures TrimEnd(ToUpper(s), IsJsSpace) == ToUpper(TrimEnd(s, IsJsSpace))
    decreases |s|
  {
    if s != [] {
      UpperKeepsSpaces(s[|s| - 1]);
      ToUpperAt(s);
      ToUpperAt(s[..|s| - 1]);
      assert ToUpper(s)[..|s| - 1] == ToUpper(s[..|s| - 1]);
      if IsJsSpace(s[|s| - 1]) {
        TrimEndUpper(s[..|s| - 1]);
      }
    }
  }

  /** `s.toUpperCase().trim()` equals `s.trim().toUpperCase()`. */
  lemma TrimUpperCommute(s: string)
    ensures JsTrim(ToUpper(s)) == ToUpper(JsTrim(s))
  {
    TrimStartUpper(s);
    TrimEndUpper(TrimStart(s, IsJsSpace));
  }

  /** On ASCII text JavaScript's toUpperCase and PHP's strtoupper agree. */
  lemma AsciiUppersAgree(s: string)
    requires forall k | 0 <= k < |s| :: s[k] < '\U{0080}'
    ensures ToUpper(s) == AsciiUpper(s)
  {
    ToUpperAt(s);
    AsciiUpperAt(s);
  }

  // ---------------------------------------------------------------- lengths

  /** JavaScript's `.length`: UTF-16 code units, two for a character outside the Basic
      Multilingual Plane. */
  function Utf16Length(s: string): (n: nat)
    ensures n >= |s|
  {
    if s == [] then 0 else (if s[0] < '\U{10000}' then 1 else 2) + Utf16Length(s[1..])
  }

  /** PHP's strlen on UTF-8 text: bytes. */
  function Utf8Length(s: string): (n: nat)
    ensures n >= |s|
  {
    if s == [] then 0
    else
      (if s[0] < '\U{0080}' then 1 else if s[0] < '\U{0800}' then 2 else if s[0] < '\U{10000}' then 3 else 4)
      + Utf8Length(s[1..])
  }

  /** On ASCII text both lengths count characters. */
  lemma {:induction false} AsciiLengths(s: string)
    requires forall k | 0 <= k < |s| :: s[k] < '\U{0080}'
    ensures Utf16Length(s) == |s| && Utf8Length(s) == |s|
  {
    if s != [] {
      AsciiLengths(s[1..]);
    }
  }

  /** ASCII text without surrounding spaces: JavaScript's trim keeps it and its length is
      its number of characters. */
  lemma PlainAscii(s: string)
    requires s != [] && !IsJsSpace(s[0]) && !IsJsSpace(s[|s| - 1])
    requires forall k | 0 <= k < |s| :: s[k] < '\U{0080}'
    ensures JsTrim(s) == s && Utf16Length(s) == |s|
  {
    TrimUnpadded(s, IsJsSpace);
    AsciiLengths(s);
  }

  /** The same text with one blank on each side trims to the text itself. */
  lemma PaddedTrim(padded: string, s: string)
    requires s != [] && !IsJsSpace(s[0]) && !IsJsSpace(s[|s| - 1])
    requires padded == [' '] + s + [' ']
    ensures JsTrim(padded) == s
  {
    TrimPadded(s, IsJsSpace, ' ');
  }

  // ---------------------------------------------------------------- decimal numerals

  predicate IsDigit(c: char) {
    '0' <= c <= '9'
  }

  function DigitChar(d: nat): (c: char)
    requires d < 10
    ensures IsDigit(c)
  {
    ('0' as int + d) as char
  }

  /** The decimal numeral of n without leading zeros, as JavaScript writes an integer below
      10^21 into a template literal (from 10^21 on it switches to exponent notation). */
  function DecimalText(n: nat): (r: string)
    ensures r != [] && forall k | 0 <= k < |r| :: IsDigit(r[k])
  {
    if n < 10 then [DigitChar(n)] else DecimalText(n / 10) + [DigitChar(n % 10)]
  }

  /** The value of a string of decimal digits. */
  function DigitsValue(s: string): nat
    requires forall k | 0 <= k < |s| :: IsDigit(s[k])
  {
    if s == [] then 0
    else
      assert IsDigit(s[|s| - 1]);
      DigitsValue(s[..|s| - 1]) * 10 + (s[|s| - 1] as int - '0' as int)
  }

  /** Reading back a written numeral gives the number. */
  lemma {:induction false} DecimalRoundTrip(n: nat)
    ensures DigitsValue(DecimalText(n)) == n
  {
    if n >= 10 {
      var t := DecimalText(n);
      assert t[..|t| - 1] == DecimalText(n / 10);
      DecimalRoundTrip(n / 10);
    }
  }

  /** Position of the first occurrence of c in s, or |s| when there is none. */
  function IndexOf(s: string, c: char): (i: nat)
    ensures i <= |s| && (i < |s| ==> s[i] == c)
    ensures forall k | 0 <= k < i :: s[k] != c
  {
    if s == [] || s[0] == c then 0 else 1 + IndexOf(s[1..], c)
  }

  /** Array.prototype.join. */
  function Join(parts: seq<string>, sep: string): string {
    if parts == [] then "" else if |parts| == 1 then parts[0] else parts[0] + sep + Join(parts[1..], sep)
  }
}
