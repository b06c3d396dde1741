/** The recursive palindrome check of TEMA4 (esPalindromo): the word is lower-cased and
    stripped of every whitespace character, then an inner function compares the first
    and last element and recurses on what lies between. JavaScript strings are indexed by
    UTF-16 code unit, so the comparison runs over code units, not characters. */
module Palindrome {
  import opened Text

  // ---------------------------------------------------------------- the recursion

  /** The inner function verificar, over any sequence: true for length 0 or 1, false when
      the ends differ, otherwise the answer for the sequence without its ends. */
  function Verify<T(==)>(s: seq<T>): bool
    decreases |s|
  {
    if |s| <= 1 then true
    else if s[0] != s[|s| - 1] then false
    else Verify(s[1..|s| - 1])
  }

  function Reverse<T>(s: seq<T>): (r: seq<T>)
    ensures |r| == |s|
  {
    if s == [] then [] else Reverse(s[1..]) + [s[0]]
  }

  lemma {:induction false} ReverseAt<T>(s: seq<T>)
    ensures forall k | 0 <= k < |s| :: Reverse(s)[k] == s[|s| - 1 - k]
    decreases |s|
  {
    if s != [] {
      ReverseAt(s[1..]);
    }
  }

  /** Whether s reads the same both ways, said without recursion. */
  predicate Symmetric<T(==)>(s: seq<T>) {
    forall k | 0 <= k < |s| :: s[k] == s[|s| - 1 - k]
  }

  /** verificar decides exactly whether the sequence equals its reverse. */
  lemma {:induction false} VerifyIsSymmetric<T>(s: seq<T>)
    ensures Verify(s) <==> Symmetric(s)
    decreases |s|
  {
    if |s| > 1 {
      var mid := s[1..|s| - 1];
      VerifyIsSymmetric(mid);
      if s[0] == s[|s| - 1] {
        if Symmetric(mid) {
          forall k | 0 <= k < |s| ensures s[k] == s[|s| - 1 - k] {
            if 0 < k < |s| - 1 {
              assert s[k] == mid[k - 1] && s[|s| - 1 - k] == mid[|mid| - 1 - (k - 1)];
            }
          }
        } else {
          var k :| 0 <= k < |mid| && mid[k] != mid[|mid| - 1 - k];
          assert s[k + 1] == mid[k] && s[|s| - 1 - (k + 1)] == mid[|mid| - 1 - k];
        }
      } else {
        assert s[0] != s[|s| - 1 - 0];
      }
    }
  }

  lemma VerifyIsReverse<T>(s: seq<T>)
    ensures Verify(s) <==> s == Reverse(s)
  {
    VerifyIsSymmetric(s);
    ReverseAt(s);
  }

  // ---------------------------------------------------------------- cleaning the word

  /** `.replace(/\s/g, "")`: every whitespace character removed. */
  function RemoveSpaces(s: string): (r: string)
    ensures |r| <= |s|
  {
    if s == [] then []
    else (if IsJsSpace(s[0]) then [] else [s[0]]) + RemoveSpaces(s[1..])
  }

  lemma {:induction false} RemoveSpacesLeavesNone(s: string)
    ensures forall k | 0 <= k < |RemoveSpaces(s)| :: !IsJsSpace(RemoveSpaces(s)[k])
    decreases |s|
  {
    if s != [] {
      RemoveSpacesLeavesNone(s[1..]);
    }
  }

  lemma {:induction false} RemoveSpacesAppend(a: string, b: string)
    ensures RemoveSpaces(a + b) == RemoveSpaces(a) + RemoveSpaces(b)
    decreases |a|
  {
    if a != [] {
      var h := if IsJsSpace(a[0]) then [] else [a[0]];
      assert (a + b)[0] == a[0] && (a + b)[1..] == a[1..] + b;
      RemoveSpacesAppend(a[1..], b);
      assert RemoveSpaces(a + b) == h + RemoveSpaces(a[1..] + b);
      assert RemoveSpaces(a) == h + RemoveSpaces(a[1..]);
    } else {
      assert a + b == b;
    }
  }

  lemma {:induction false} ToLowerAppend(a: string, b: string)
    ensures ToLower(a + b) == ToLower(a) + ToLower(b)
    decreases |a|
  {
    if a != [] {
      assert (a + b)[0] == a[0] && (a + b)[1..] == a[1..] + b;
      ToLowerAppend(a[1..], b);
      assert ToLower(a + b) == [LowerChar(a[0])] + ToLower(a[1..] + b);
    } else {
      assert a + b == b;
    }
  }

  /** `palabra.toLowerCase().replace(/\s/g, "")`. */
  function Normalize(palabra: string): string {
    RemoveSpaces(ToLower(palabra))
  }

  // ---------------------------------------------------------------- UTF-16

  /** The UTF-16 code units of a string: one for a character of the Basic Multilingual
      Plane, a surrogate pair for any other. */
  function Utf16Units(s: string): (u: seq<int>)
    ensures |u| == Utf16Length(s)
  {
    if s == [] then []
    else
      var c := s[0] as int;
      (if c < 0x1_0000 then [c] else [0xD800 + (c - 0x1_0000) / 0x400, 0xDC00 + (c - 0x1_0000) % 0x400])
      + Utf16Units(s[1..])
  }

  predicate AllBmp(s: string) {
    forall k | 0 <= k < |s| :: s[k] < '\U{10000}'
  }

  /** On Basic-Multilingual-Plane text each character is one code unit. */
  lemma {:induction false} BmpUnits(s: string)
    requires AllBmp(s)
    ensures |Utf16Units(s)| == |s| && forall k | 0 <= k < |s| :: Utf16Units(s)[k] == s[k] as int
    decreases |s|
  {
    if s != [] {
      BmpUnits(s[1..]);
    }
  }

  /** On such text, comparing code units is comparing characters. */
  lemma BmpSymmetric(s: string)
    requires AllBmp(s)
    ensures Symmetric(Utf16Units(s)) <==> Symmetric(s)
  {
    BmpUnits(s);
    var u := Utf16Units(s);
    if Symmetric(u) {
      forall k | 0 <= k < |s| ensures s[k] == s[|s| - 1 - k] {
        assert u[k] == u[|u| - 1 - k];
      }
    }
  }

  // ---------------------------------------------------------------- esPalindromo

  /** esPalindromo as written: verificar runs on the code units of the cleaned word. */
  function EsPalindromo(palabra: string): bool {
    Verify(Utf16Units(Normalize(palabra)))
  }

  /** The check the comments describe, character by character. */
  function IsPalindromeWord(palabra: string): bool {
    Verify(Normalize(palabra))
  }

  /** The corrected check accepts exactly the words whose cleaned form reads the same
      backwards. */
  lemma IsPalindromeWordSpec(palabra: string)
    ensures IsPalindromeWord(palabra) <==> Normalize(palabra) == Reverse(Normalize(palabra))
  {
    VerifyIsReverse(Normalize(palabra));
  }

  /** Both agree whenever the word has no character outside the Basic Multilingual Plane. */
  lemma BmpWordsAgree(palabra: string)
    requires AllBmp(palabra)
    ensures EsPalindromo(palabra) == IsPalindromeWord(palabra)
  {
    var t := Normalize(palabra);
    assert AllBmp(t) by {
      NormalizeKeepsBmp(palabra);
    }
    VerifyIsSymmetric(Utf16Units(t));
    VerifyIsSymmetric(t);
    BmpSymmetric(t);
  }

  lemma NormalizeKeepsBmp(palabra: string)
    requires AllBmp(palabra)
    ensures AllBmp(Normalize(palabra))
  {
    ToLowerAt(palabra);
    RemoveSpacesSubset(ToLower(palabra), '\U{10000}');
  }

  /** Removing characters keeps every bound the remaining ones satisfied. */
  lemma {:induction false} RemoveSpacesSubset(s: string, bound: char)
    requires forall k | 0 <= k < |s| :: s[k] < bound
    ensures forall k | 0 <= k < |RemoveSpaces(s)| :: RemoveSpaces(s)[k] < bound
    decreases |s|
  {
    if s != [] {
      RemoveSpacesSubset(s[1..], bound);
    }
  }

  /** A one-character word outside the Basic Multilingual Plane is two code units, which
      differ, so the check as written rejects it; the character check accepts it. */
  lemma AstralCharacterRejected()
    ensures !EsPalindromo("\U{1F600}")
    ensures IsPalindromeWord("\U{1F600}")
  {
    var w := "\U{1F600}";
    assert ToLower(w) == w;
    assert RemoveSpaces(w) == w;
    var u := Utf16Units(w);
    assert u == [0xD83D, 0xDE00];
  }

  // ---------------------------------------------------------------- what the cleaning ignores

  lemma {:induction false} LowerUpper(s: string)
    ensures ToLower(ToUpper(s)) == ToLower(s)
    decreases |s|
  {
    if s != [] {
      LowerUpper(s[1..]);
    }
  }

  /** Upper-casing the word does not change the answer, for the characters the case maps
      cover exactly. */
  lemma CaseInsensitive(palabra: string)
    requires CaseMapExact(palabra)
    ensures EsPalindromo(ToUpper(palabra)) == EsPalindromo(palabra)
  {
    LowerUpper(palabra);
  }

  lemma LowerSpace(c: char)
    requires IsJsSpace(c)
    ensures ToLower([c]) == [c]
  {
  }

  /** A whitespace character anywhere in the word does not change the answer, for words
      whose case the case maps cover exactly (lower-casing "σΣ" and "σ Σ" differs in the
      last letter). */
  lemma SpaceInsensitive(a: string, c: char, b: string)
    requires IsJsSpace(c) && CaseMapExact(a) && CaseMapExact(b)
    ensures EsPalindromo(a + [c] + b) == EsPalindromo(a + b)
  {
    var la, lb := ToLower(a), ToLower(b);
    ToLowerAppend(a + [c], b);
    ToLowerAppend(a, [c]);
    ToLowerAppend(a, b);
    LowerSpace(c);
    assert ToLower(a + [c] + b) == la + [c] + lb;
    RemoveSpacesAppend(la + [c], lb);
    RemoveSpacesAppend(la, [c]);
    RemoveSpacesAppend(la, lb);
    assert RemoveSpaces([c]) == [];
    assert Normalize(a + [c] + b) == RemoveSpaces(la) + RemoveSpaces(lb) == Normalize(a + b);
  }

  // ---------------------------------------------------------------- the sample words

  lemma {:induction false} NoSpacesKept(s: string)
    requires forall k | 0 <= k < |s| :: !IsJsSpace(s[k])
    ensures RemoveSpaces(s) == s
    decreases |s|
  {
    if s != [] {
      NoSpacesKept(s[1..]);
    }
  }

  /** ASCII letters only. */
  predicate Letters(w: string) {
    forall k | 0 <= k < |w| :: 'a' <= w[k] <= 'z' || 'A' <= w[k] <= 'Z'
  }

  /** A word of ASCII letters is cleaned to its lower-case form, letter by letter. */
  lemma LetterWord(w: string)
    requires Letters(w)
    ensures |Normalize(w)| == |w|
    ensures forall k | 0 <= k < |w| :: Normalize(w)[k] == LowerChar(w[k])
    ensures EsPalindromo(w) == Verify(Normalize(w))
  {
    ToLowerAt(w);
    NoSpacesKept(ToLower(w));
    BmpWordsAgree(w);
  }

  /** A lower-case word is its own cleaned form. */
  lemma LowerWord(w: string)
    requires LowerLetters(w)
    ensures EsPalindromo(w) == Verify(w)
  {
    LetterWord(w);
    assert Normalize(w) == w;
  }

  /** Lower-case ASCII letters only. */
  predicate LowerLetters(w: string) {
    forall k | 0 <= k < |w| :: 'a' <= w[k] <= 'z'
  }

  /** verificar accepts "radar" and "reconocer", peeling one pair of ends per call. */
  lemma SymmetricSamples()
    ensures Verify("radar") && Verify("reconocer")
  {
    assert "radar"[1..4] == "ada" && "ada"[1..2] == "d";
    assert "reconocer"[1..8] == "econoce";
    assert "econoce"[1..6] == "conoc";
    assert "conoc"[1..4] == "ono" && "ono"[1..2] == "n";
  }

  lemma Radar()
    ensures EsPalindromo("radar")
  {
    var w := "radar";
    assert LowerLetters(w);
    LowerWord(w);
    SymmetricSamples();
  }

  lemma Reconocer()
    ensures EsPalindromo("reconocer")
  {
    var w := "reconocer";
    assert LowerLetters(w);
    LowerWord(w);
    SymmetricSamples();
  }

  lemma Hola()
    ensures !EsPalindromo("hola")
  {
    var w := "hola";
    assert LowerLetters(w);
    LowerWord(w);
  }

  lemma Marialamejor()
    ensures !EsPalindromo("marialamejor")
  {
    var w := "marialamejor";
    assert LowerLetters(w);
    LowerWord(w);
  }

  /** Different ends: verificar answers false at once. */
  lemma EndsDiffer<T>(s: seq<T>)
    requires |s| >= 2 && s[0] != s[|s| - 1]
    ensures !Verify(s)
  {
  }

  /** A word of letters whose ends differ once lower-cased is not a palindrome. */
  lemma LetterWordEnds(w: string)
    requires Letters(w) && |w| >= 2 && LowerChar(w[0]) != LowerChar(w[|w| - 1])
    ensures !EsPalindromo(w)
  {
    LetterWord(w);
    EndsDiffer(Normalize(w));
  }

  /** "JavaScript" is cleaned to "javascript", which starts with j and ends with t. */
  lemma JavaScriptIsNot()
    ensures !EsPalindromo("JavaScript")
  {
    var w := "JavaScript";
    assert Letters(w);
    LetterWordEnds(w);
  }
}
