/** `is_without_special_chars`: a word is a valid identifier when, with its
    spaces turned into underscores, it matches `^[a-zA-Z_]+[a-zA-Z0-9_]+$`
    under Python's `re.match`. */
module Identifier {

  /** `[a-zA-Z_]`: the characters the first run of the pattern accepts. */
  predicate IsHeadChar(c: char) {
    ('a' <= c <= 'z') || ('A' <= c <= 'Z') || c == '_'
  }

  /** `[a-zA-Z0-9_]`: the characters the second run of the pattern accepts. */
  predicate IsWordChar(c: char) {
    IsHeadChar(c) || ('0' <= c <= '9')
  }

  /** `word.replace(" ", "_")`: every space becomes an underscore and every
      other character stays where it was. */
  function ReplaceSpaces(word: string): (r: string)
    ensures |r| == |word|
    ensures forall i :: 0 <= i < |word| ==> r[i] == (if word[i] == ' ' then '_' else word[i])
    ensures ' ' !in r
  {
    if word == [] then []
    else [if word[0] == ' ' then '_' else word[0]] + ReplaceSpaces(word[1..])
  }

  ghost predicate AllHead(s: string) {
    forall i :: 0 <= i < |s| ==> IsHeadChar(s[i])
  }

  ghost predicate AllWord(s: string) {
    forall i :: 0 <= i < |s| ==> IsWordChar(s[i])
  }

  /** The language of `[a-zA-Z_]+[a-zA-Z0-9_]+`: `s` splits into a non-empty
      run of head characters followed by a non-empty run of word characters. */
  ghost predicate InPattern(s: string) {
    exists k :: 1 <= k < |s| && AllHead(s[..k]) && AllWord(s[k..])
  }

  /** `re.match` with the anchors `^` and `$`: `^` holds at the start, and
      Python's `$` (without MULTILINE) holds at the end of the string or just
      before a single newline that ends it. */
  ghost predicate PythonFullMatch(s: string) {
    InPattern(s) || (|s| > 0 && s[|s| - 1] == '\n' && InPattern(s[..|s| - 1]))
  }

  /** The three conditions the pattern comes down to: at least two
      characters, a head character first, word characters after it. */
  predicate WellFormed(s: string) {
    |s| >= 2 && IsHeadChar(s[0]) && forall i :: 1 <= i < |s| ==> IsWordChar(s[i])
  }

  /** The pattern's language is exactly the well-formed strings. */
  lemma InPatternIff(s: string)
    ensures InPattern(s) <==> WellFormed(s)
  {
    if WellFormed(s) {
      assert AllHead(s[..1]);
      assert AllWord(s[1..]) by {
        forall i | 0 <= i < |s[1..]| ensures IsWordChar(s[1..][i]) {
          assert s[1..][i] == s[i + 1];
        }
      }
    }
    if InPattern(s) {
      var k :| 1 <= k < |s| && AllHead(s[..k]) && AllWord(s[k..]);
      assert s[..k][0] == s[0];
      forall i | 1 <= i < |s| ensures IsWordChar(s[i]) {
        if i < k {
          assert s[..k][i] == s[i];
        } else {
          assert s[k..][i - k] == s[i];
        }
      }
    }
  }

  /** The string the anchored pattern is matched against: one final newline,
      if there is one, is left to Python's `$`. */
  function WithoutFinalNewline(s: string): string {
    if |s| > 0 && s[|s| - 1] == '\n' then s[..|s| - 1] else s
  }

  /** `is_without_special_chars`. Computed by the three conditions; the
      result is that of Python's anchored regular-expression match. */
  function IsWithoutSpecialChars(word: string): (b: bool)
    ensures b <==> PythonFullMatch(ReplaceSpaces(word))
  {
    var s := ReplaceSpaces(word);
    InPatternIff(s);
    InPatternIff(WithoutFinalNewline(s));
    WellFormed(WithoutFinalNewline(s))
  }

  /** The same verdict stated on the word as given: a space counts as an
      underscore, and one final newline is ignored. */
  lemma IsWithoutSpecialCharsOnWord(word: string)
    ensures var w := WithoutFinalNewline(word);
      IsWithoutSpecialChars(word) <==>
        && |w| >= 2
        && (IsHeadChar(w[0]) || w[0] == ' ')
        && forall i :: 1 <= i < |w| ==> IsWordChar(w[i]) || w[i] == ' '
  {

  }

  /** The fixed examples: a single letter is refused, a leading digit is
      refused, a letter followed by a digit or by a space is accepted, and a
      final newline slips through Python's `$`. */
  lemma IdentifierExamples()
    ensures !IsWithoutSpecialChars("a")
    ensures IsWithoutSpecialChars("a1")
    ensures IsWithoutSpecialChars("a b")
    ensures !IsWithoutSpecialChars("1a")
    ensures IsWithoutSpecialChars("ab\n")
    ensures !IsWithoutSpecialChars("a-b")
  {

  }
}
