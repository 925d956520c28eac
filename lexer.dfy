/**
 * The lexical rule set of the "graphql-variables" mode: four token matchers,
 * Punctuation, Number, String and Keyword, each applied at the current scan
 * position of a line.
 *
 * Every matcher is written by hand after its regular expression and returns
 * the length of the matched prefix, or None. Each pattern's language is also
 * defined on its own (IsPunctuationLexeme, IsNumberLexeme, IsStringLexeme,
 * IsKeywordLexeme), and MatchIsLongestPrefix proves that every matcher
 * returns the LONGEST prefix of the input in that language, and None exactly
 * when no prefix is in it. For these four patterns, the greedy first match of
 * the regular expression is that longest prefix.
 *
 * Anchoring: in the Punctuation and Keyword patterns the `^` binds only to
 * the first alternative. Whether a match found further along the line is
 * accepted is decided by the stream's `match` call in the online parser,
 * which is not part of this model. Every matcher here matches at the scan
 * position only.
 */
module Lexer {
  import opened Wrappers

  /** The four lexical rules, in the order they are declared. */
  datatype LexKind = Punctuation | Number | String | Keyword

  /** A token: the name of the lexical rule that matched, and the matched text. */
  datatype Token = Token(kind: string, value: string)

  function KindName(k: LexKind): string
  {
    match k
    case Punctuation => "Punctuation"
    case Number => "Number"
    case String => "String"
    case Keyword => "Keyword"
  }

  // ---------------------------------------------------------------------
  // Character classes
  // ---------------------------------------------------------------------

  predicate IsDigit(c: char) { '0' <= c <= '9' }

  predicate IsHexDigit(c: char) { IsDigit(c) || 'a' <= c <= 'f' || 'A' <= c <= 'F' }

  predicate IsPunctuationChar(c: char) { c in "[]{}:," }

  /** The characters that may follow a backslash, other than `u`. */
  predicate IsSimpleEscape(c: char) { c in "\"/\\bfnrt" }

  /** The characters each rule's matches can begin with. */
  predicate StartsRule(k: LexKind, c: char)
  {
    match k
    case Punctuation => IsPunctuationChar(c)
    case Number => c == '-' || IsDigit(c)
    case String => c == '"'
    case Keyword => c in "tfn"
  }

  // ---------------------------------------------------------------------
  // The language of each rule, independent of the matchers
  // ---------------------------------------------------------------------

  predicate IsPunctuationLexeme(w: string) { |w| == 1 && IsPunctuationChar(w[0]) }

  predicate AllDigits(w: string) { forall i | 0 <= i < |w| :: IsDigit(w[i]) }

  /** `0`, or a non-zero digit followed by digits. */
  predicate IsIntegerPart(w: string)
  {
    w == "0" || (|w| > 0 && '1' <= w[0] <= '9' && AllDigits(w[1..]))
  }

  /** Empty, or `.` followed by zero or more digits. */
  predicate IsFraction(w: string) { w == "" || (w[0] == '.' && AllDigits(w[1..])) }

  /** Empty, or `e`/`E`, an optional sign and at least one digit. */
  predicate IsExponent(w: string)
  {
    w == "" ||
    (|w| >= 2 && (w[0] == 'e' || w[0] == 'E') &&
     if w[1] == '+' || w[1] == '-' then |w| > 2 && AllDigits(w[2..]) else AllDigits(w[1..]))
  }

  /** w is an optional `-` (w[..i]), an integer part (w[i..j]), a fraction (w[j..k]) and an exponent (w[k..]). */
  predicate IsNumberSplit(w: string, i: nat, j: nat, k: nat)
  {
    i <= j <= k <= |w| && (i == 0 || (i == 1 && w[0] == '-')) &&
    IsIntegerPart(w[i..j]) && IsFraction(w[j..k]) && IsExponent(w[k..])
  }

  ghost predicate IsNumberLexeme(w: string)
  {
    exists i: nat, j: nat, k: nat :: IsNumberSplit(w, i, j, k)
  }

  /**
   * A run of string characters: characters other than `"` and backslash,
   * simple escapes, and `\u` followed by exactly four hex digits.
   */
  predicate IsStringBody(b: string)
    decreases |b|
  {
    b == "" ||
    (b[0] != '"' && b[0] != '\\' && IsStringBody(b[1..])) ||
    (|b| >= 2 && b[0] == '\\' && IsSimpleEscape(b[1]) && IsStringBody(b[2..])) ||
    (|b| >= 6 && b[0] == '\\' && b[1] == 'u' &&
     IsHexDigit(b[2]) && IsHexDigit(b[3]) && IsHexDigit(b[4]) && IsHexDigit(b[5]) &&
     IsStringBody(b[6..]))
  }

  /** w is `"`, a body w[1..k], and an optional closing `"`. */
  predicate IsStringSplit(w: string, k: nat)
  {
    0 < |w| && w[0] == '"' && 1 <= k <= |w| && IsStringBody(w[1..k]) &&
    (k == |w| || (k + 1 == |w| && w[k] == '"'))
  }

  ghost predicate IsStringLexeme(w: string)
  {
    exists k: nat :: IsStringSplit(w, k)
  }

  predicate IsKeywordLexeme(w: string) { w == "true" || w == "false" || w == "null" }

  ghost predicate InLanguage(k: LexKind, w: string)
  {
    match k
    case Punctuation => IsPunctuationLexeme(w)
    case Number => IsNumberLexeme(w)
    case String => IsStringLexeme(w)
    case Keyword => IsKeywordLexeme(w)
  }

  // ---------------------------------------------------------------------
  // The matchers
  // ---------------------------------------------------------------------

  /** Punctuation: one of `[ ] { } : ,`. */
  function MatchPunctuation(s: string): (r: Option<nat>)
    ensures r.Some? <==> |s| > 0 && IsPunctuationChar(s[0])
    ensures r.Some? ==> r.value == 1
  {
    if |s| > 0 && IsPunctuationChar(s[0]) then Some(1) else None
  }

  /** The end of the run of digits that starts at i. */
  function DigitsEnd(s: string, i: nat): (r: nat)
    requires i <= |s|
    ensures i <= r <= |s|
    ensures AllDigits(s[i..r])
    ensures r < |s| ==> !IsDigit(s[r])
    decreases |s| - i
  {
    if i < |s| && IsDigit(s[i]) then
      var r := DigitsEnd(s, i + 1);
      assert forall x | 0 < x < r - i :: s[i..r][x] == s[i + 1..r][x - 1];
      r
    else i
  }

  /** The end of the exponent that starts at c; c itself when there is none. */
  function ExponentEnd(s: string, c: nat): (r: nat)
    requires c <= |s|
    ensures c <= r <= |s|
    ensures IsExponent(s[c..r])
  {
    if c < |s| && (s[c] == 'e' || s[c] == 'E') then
      var e := if c + 1 < |s| && (s[c + 1] == '+' || s[c + 1] == '-') then c + 2 else c + 1;
      var f := DigitsEnd(s, e);
      if f > e then
        assert s[c..f][e - c..] == s[e..f];
        f
      else c
    else c
  }

  /** The end of the integer part that starts at i: a lone `0` ends it. */
  function IntegerEnd(s: string, i: nat): (r: nat)
    requires i < |s| && IsDigit(s[i])
    ensures i < r <= |s|
    ensures IsIntegerPart(s[i..r])
  {
    if s[i] == '0' then
      assert s[i..i + 1] == "0";
      i + 1
    else
      var r := DigitsEnd(s, i + 1);
      assert s[i..r][1..] == s[i + 1..r];
      r
  }

  /** The end of the fraction that starts at j; j itself when there is none. */
  function FractionEnd(s: string, j: nat): (r: nat)
    requires j <= |s|
    ensures j <= r <= |s|
    ensures IsFraction(s[j..r])
  {
    if j < |s| && s[j] == '.' then
      var r := DigitsEnd(s, j + 1);
      assert s[j..r][1..] == s[j + 1..r];
      r
    else j
  }

  /** Number: optional `-`, integer part, optional fraction, optional exponent. */
  function MatchNumber(s: string): (r: Option<nat>)
    ensures r.Some? <==> (|s| > 0 && IsDigit(s[0])) || (|s| > 1 && s[0] == '-' && IsDigit(s[1]))
    ensures r.Some? ==> r.value <= |s| && (if s[0] == '-' then 1 < r.value else 0 < r.value)
  {
    var i := if |s| > 0 && s[0] == '-' then 1 else 0;
    if i < |s| && IsDigit(s[i]) then
      Some(ExponentEnd(s, FractionEnd(s, IntegerEnd(s, i))))
    else None
  }

  /** The length of a valid escape sequence at i (2 or 6), or 0 if there is none. */
  function EscapeLength(s: string, i: nat): (r: nat)
    requires i <= |s|
    ensures r == 0 || r == 2 || r == 6
    ensures r > 0 ==> i + r <= |s| && s[i] == '\\'
    ensures r == 2 ==> IsSimpleEscape(s[i + 1])
    ensures r == 6 ==> s[i + 1] == 'u' && IsHexDigit(s[i + 2]) && IsHexDigit(s[i + 3]) &&
                       IsHexDigit(s[i + 4]) && IsHexDigit(s[i + 5])
    ensures r == 0 && i < |s| && s[i] == '\\' ==> forall n | i < n <= |s| :: !IsStringBody(s[i..n])
  {
    if i + 1 < |s| && s[i] == '\\' && IsSimpleEscape(s[i + 1]) then 2
    else if i + 5 < |s| && s[i] == '\\' && s[i + 1] == 'u' &&
            IsHexDigit(s[i + 2]) && IsHexDigit(s[i + 3]) &&
            IsHexDigit(s[i + 4]) && IsHexDigit(s[i + 5]) then 6
    else 0
  }

  /**
   * The end of the string body that starts at i: the scan stops at a `"`,
   * at a backslash that starts no valid escape, or at the end of the input.
   */
  function StringBodyEnd(s: string, i: nat): (r: nat)
    requires i <= |s|
    ensures i <= r <= |s|
    ensures IsStringBody(s[i..r])
    ensures r < |s| ==> s[r] == '"' || (s[r] == '\\' && EscapeLength(s, r) == 0)
    decreases |s| - i
  {
    if i < |s| && s[i] != '"' && s[i] != '\\' then
      var r := StringBodyEnd(s, i + 1);
      assert s[i..r][1..] == s[i + 1..r];
      r
    else if i < |s| && EscapeLength(s, i) > 0 then
      var n := EscapeLength(s, i);
      var r := StringBodyEnd(s, i + n);
      assert s[i..r][n..] == s[i + n..r];
      r
    else i
  }

  /** String: `"`, a body, and a closing `"` if one follows the body. */
  function MatchString(s: string): (r: Option<nat>)
    ensures r.Some? <==> |s| > 0 && s[0] == '"'
    ensures r.Some? ==> 0 < r.value <= |s|
  {
    if |s| > 0 && s[0] == '"' then
      var e := StringBodyEnd(s, 1);
      Some(if e < |s| && s[e] == '"' then e + 1 else e)
    else None
  }

  /** Keyword: `true`, `false` or `null`, with no check of what follows. */
  function MatchKeyword(s: string): (r: Option<nat>)
    ensures r.Some? ==> r.value <= |s| && IsKeywordLexeme(s[..r.value])
    ensures r.None? ==> forall n | 0 <= n <= |s| :: !IsKeywordLexeme(s[..n])
  {
    if |s| >= 4 && s[..4] == "true" then Some(4)
    else if |s| >= 5 && s[..5] == "false" then Some(5)
    else if |s| >= 4 && s[..4] == "null" then Some(4)
    else None
  }

  function MatchRule(k: LexKind, s: string): (r: Option<nat>)
    ensures r.Some? ==> 0 < r.value <= |s| && StartsRule(k, s[0])
  {
    match k
    case Punctuation => MatchPunctuation(s)
    case Number => MatchNumber(s)
    case String => MatchString(s)
    case Keyword => MatchKeyword(s)
  }

  /**
   * The rules tried in declaration order at the scan position. Because the
   * rules are disjoint on their first character, the order does not matter:
   * whichever rule matches is the one chosen.
   */
  function Lex(s: string): (r: Option<(LexKind, nat)>)
    ensures r.Some? ==> MatchRule(r.value.0, s) == Some(r.value.1)
    ensures forall k :: MatchRule(k, s).Some? ==> r == Some((k, MatchRule(k, s).value))
  {
    if MatchRule(Punctuation, s).Some? then Some((Punctuation, MatchRule(Punctuation, s).value))
    else if MatchRule(Number, s).Some? then Some((Number, MatchRule(Number, s).value))
    else if MatchRule(String, s).Some? then Some((String, MatchRule(String, s).value))
    else if MatchRule(Keyword, s).Some? then Some((Keyword, MatchRule(Keyword, s).value))
    else None
  }

  /** The token at the scan position: the matching rule's name and the matched prefix. */
  function NextToken(s: string): (r: Option<Token>)
    ensures r.Some? <==> exists k :: MatchRule(k, s).Some?
    ensures r.Some? ==> 0 < |r.value.value| <= |s| && r.value.value == s[..|r.value.value|]
    ensures r.Some? ==> r.value.kind in {"Punctuation", "Number", "String", "Keyword"}
    ensures r.Some? && r.value.kind == "Punctuation" ==> IsPunctuationLexeme(r.value.value)
    ensures r.Some? && r.value.kind == "Keyword" ==> IsKeywordLexeme(r.value.value)
    ensures r.Some? ==> exists k :: r.value.kind == KindName(k) && MatchRule(k, s) == Some(|r.value.value|)
  {
    match Lex(s)
    case None => None
    case Some((k, n)) =>
      MatchIsLongestPrefix(k, s);
      Some(Token(KindName(k), s[..n]))
  }

  // ---------------------------------------------------------------------
  // Each matcher returns the longest prefix in its rule's language
  // ---------------------------------------------------------------------

  lemma MatchIsLongestPrefix(k: LexKind, s: string)
    ensures MatchRule(k, s).Some? ==> InLanguage(k, s[..MatchRule(k, s).value])
    ensures forall m | 0 <= m <= |s| && InLanguage(k, s[..m]) ::
              MatchRule(k, s).Some? && m <= MatchRule(k, s).value
  {
    match k
    case Punctuation =>
      forall m | 0 <= m <= |s| && InLanguage(k, s[..m])
        ensures MatchRule(k, s).Some? && m <= MatchRule(k, s).value
      {
        assert s[..m][0] == s[0];
      }
    case Number =>
      if MatchNumber(s).Some? { NumberSound(s); }
      forall m | 0 <= m <= |s| && InLanguage(k, s[..m])
        ensures MatchRule(k, s).Some? && m <= MatchRule(k, s).value
      {
        NumberLongest(s, m);
      }
    case String =>
      if MatchString(s).Some? { StringSound(s); }
      forall m | 0 <= m <= |s| && InLanguage(k, s[..m])
        ensures MatchRule(k, s).Some? && m <= MatchRule(k, s).value
      {
        StringLongest(s, m);
      }
    case Keyword =>
      forall m | 0 <= m <= |s| && InLanguage(k, s[..m])
        ensures MatchRule(k, s).Some? && m <= MatchRule(k, s).value
      {
        KeywordLongest(s, m);
      }
  }

  /** Every digit run starting at i ends no later than DigitsEnd(s, i). */
  lemma DigitsMaximal(s: string, i: nat, m: nat)
    requires i <= m <= |s| && AllDigits(s[i..m])
    ensures m <= DigitsEnd(s, i)
  {
    assert forall x | i <= x < m :: s[i..m][x - i] == s[x];
  }

  /** Every exponent starting at c ends no later than ExponentEnd(s, c). */
  lemma ExponentMaximal(s: string, c: nat, m: nat)
    requires c <= m <= |s| && IsExponent(s[c..m])
    ensures m <= ExponentEnd(s, c)
  {
    if m > c {
      var w := s[c..m];
      assert w[0] == s[c] && w[1] == s[c + 1];
      if s[c + 1] == '+' || s[c + 1] == '-' {
        assert w[2..] == s[c + 2..m];
        DigitsMaximal(s, c + 2, m);
      } else {
        assert w[1..] == s[c + 1..m];
        DigitsMaximal(s, c + 1, m);
      }
    }
  }

  /** A slice of a prefix of s is the same slice of s. */
  lemma SliceOfPrefix(s: string, m: nat, a: nat, b: nat)
    requires a <= b <= m <= |s|
    ensures s[..m][a..b] == s[a..b]
  {
    assert forall x | 0 <= x < b - a :: s[..m][a..b][x] == s[a + x];
  }

  lemma NumberSound(s: string)
    requires MatchNumber(s).Some?
    ensures MatchNumber(s).value <= |s| && IsNumberLexeme(s[..MatchNumber(s).value])
  {
    var i := if |s| > 0 && s[0] == '-' then 1 else 0;
    var j := IntegerEnd(s, i);
    var k := FractionEnd(s, j);
    var n := ExponentEnd(s, k);
    var w := s[..n];
    SliceOfPrefix(s, n, i, j);
    SliceOfPrefix(s, n, j, k);
    SliceOfPrefix(s, n, k, n);
    assert IsNumberSplit(w, i, j, k);
  }

  lemma NumberLongest(s: string, m: nat)
    requires m <= |s| && IsNumberLexeme(s[..m])
    ensures MatchNumber(s).Some? && m <= MatchNumber(s).value
  {
    var w := s[..m];
    var i': nat, j': nat, k': nat :| IsNumberSplit(w, i', j', k');
    SliceOfPrefix(s, m, i', j');
    SliceOfPrefix(s, m, j', k');
    SliceOfPrefix(s, m, k', m);
    assert s[i'..j'][0] == s[i'];
    IntegerTailBounded(s, i', j', k', m);
  }

  /** A fraction and an exponent cannot follow a position that holds a digit, except both empty. */
  lemma NothingAfterDigit(s: string, p: nat, k: nat, m: nat)
    requires p <= k <= m <= |s| && p < |s| && IsDigit(s[p])
    requires IsFraction(s[p..k]) && IsExponent(s[k..m])
    ensures m == p
  {
  }

  /** Every fraction followed by an exponent, from j, ends no later than the matcher's. */
  lemma FractionTailBounded(s: string, j: nat, k: nat, m: nat)
    requires j <= k <= m <= |s| && IsFraction(s[j..k]) && IsExponent(s[k..m])
    ensures m <= ExponentEnd(s, FractionEnd(s, j))
  {
    var f := FractionEnd(s, j);
    if j < |s| && s[j] == '.' {
      if k > j {
        assert s[j..k][1..] == s[j + 1..k];
        DigitsMaximal(s, j + 1, k);
        if k < f {
          // the fraction stopped inside a digit run: nothing can follow it
          assert s[j + 1..f][k - j - 1] == s[k];
          NothingAfterDigit(s, k, k, m);
        } else {
          ExponentMaximal(s, f, m);
        }
      }
    } else {
      ExponentMaximal(s, f, m);
    }
  }

  /** Every integer part, fraction and exponent, from i, ends no later than the matcher's. */
  lemma IntegerTailBounded(s: string, i: nat, j: nat, k: nat, m: nat)
    requires i <= j <= k <= m <= |s|
    requires IsIntegerPart(s[i..j]) && IsFraction(s[j..k]) && IsExponent(s[k..m])
    ensures i < |s| && IsDigit(s[i])
    ensures m <= ExponentEnd(s, FractionEnd(s, IntegerEnd(s, i)))
  {
    assert s[i..j][0] == s[i];
    var e := IntegerEnd(s, i);
    if s[i] != '0' {
      assert s[i..j][1..] == s[i + 1..j];
      DigitsMaximal(s, i + 1, j);
    }
    if j < e {
      // the integer part stopped inside a digit run: nothing can follow it
      assert s[i + 1..e][j - i - 1] == s[j];
      NothingAfterDigit(s, j, k, m);
    } else {
      FractionTailBounded(s, e, k, m);
    }
  }

  /** Every string body starting at i ends no later than StringBodyEnd(s, i), and never just before a `"` it skipped. */
  lemma {:induction false} StringBodyMaximal(s: string, i: nat, k: nat)
    requires i <= k <= |s| && IsStringBody(s[i..k])
    ensures k <= StringBodyEnd(s, i)
    ensures k < StringBodyEnd(s, i) ==> s[k] != '"'
    decreases k - i
  {
    if i < k {
      var b := s[i..k];
      assert b[0] == s[i];
      if s[i] != '"' && s[i] != '\\' {
        assert b[1..] == s[i + 1..k];
        StringBodyMaximal(s, i + 1, k);
      } else if |b| >= 2 && IsSimpleEscape(b[1]) {
        assert b[1] == s[i + 1];
        assert b[2..] == s[i + 2..k];
        StringBodyMaximal(s, i + 2, k);
      } else {
        assert b[1] == s[i + 1] && b[2] == s[i + 2] && b[3] == s[i + 3];
        assert b[4] == s[i + 4] && b[5] == s[i + 5];
        assert b[6..] == s[i + 6..k];
        StringBodyMaximal(s, i + 6, k);
      }
    }
  }

  lemma StringSound(s: string)
    requires MatchString(s).Some?
    ensures MatchString(s).value <= |s| && IsStringLexeme(s[..MatchString(s).value])
  {
    var e := StringBodyEnd(s, 1);
    var w := s[..MatchString(s).value];
    assert w[1..e] == s[1..e];
    assert IsStringSplit(w, e);
  }

  lemma StringLongest(s: string, m: nat)
    requires m <= |s| && IsStringLexeme(s[..m])
    ensures MatchString(s).Some? && m <= MatchString(s).value
  {
    var w := s[..m];
    var k: nat :| IsStringSplit(w, k);
    assert w[0] == s[0] && w[1..k] == s[1..k];
    StringBodyMaximal(s, 1, k);
    if k < m {
      assert w[k] == s[k];
    }
  }

  lemma KeywordLongest(s: string, m: nat)
    requires m <= |s| && IsKeywordLexeme(s[..m])
    ensures MatchKeyword(s).Some? && m <= MatchKeyword(s).value
  {
    assert s[..m][0] == s[0];
    if s[..m] == "true" {
      assert s[..4] == s[..m];
    } else if s[..m] == "false" {
      assert s[..5] == s[..m];
      assert s[..4][0] == s[0];
    } else {
      assert s[..4] == s[..m];
    }
  }

  // ---------------------------------------------------------------------
  // Edge cases of the four patterns
  // ---------------------------------------------------------------------

  /**
   * A lone `-` is no number; a leading `0` ends the integer part; a fraction
   * may have no digits; an exponent needs a digit, or it is not taken.
   */
  lemma NumberEdgeCases()
    ensures MatchNumber("-") == None
    ensures MatchNumber("01") == Some(1)
    ensures MatchNumber("1.") == Some(2)
    ensures MatchNumber("1e") == Some(1)
    ensures MatchNumber("1e+") == Some(1)
    ensures MatchNumber("-0.5E-10,") == Some(8)
  {
    assert "1e"[..1] == "1";
    assert "1e+"[..1] == "1";
    var x := "-0.5E-10,";
    assert IntegerEnd(x, 1) == 2;
    assert DigitsEnd(x, 3) == 4;
    assert DigitsEnd(x, 6) == 8;
  }

  /**
   * A closed string ends at its first unescaped `"`; an open one runs to the
   * end of the input, even when it is a lone `"`.
   */
  lemma StringEdgeCases()
    ensures MatchString("\"k\": 1") == Some(3)
    ensures MatchString("\"ab") == Some(3)
    ensures MatchString("\"") == Some(1)
    ensures MatchString("x\"") == None
  {
    assert StringBodyEnd("\"k\": 1", 1) == 2;
    assert StringBodyEnd("\"ab", 1) == 3;
  }

  /**
   * An invalid escape such as `\q` ends the match just before its
   * backslash; `\u` needs exactly four hex digits.
   */
  lemma EscapeEdgeCases()
    ensures MatchString("\"a\\qb\"") == Some(2)
    ensures MatchString("\"\\u00e9\"") == Some(8)
    ensures MatchString("\"\\u00g9\"") == Some(1)
  {
    assert EscapeLength("\"a\\qb\"", 2) == 0;
    assert StringBodyEnd("\"a\\qb\"", 1) == 2;
    assert EscapeLength("\"\\u00e9\"", 1) == 6;
    assert StringBodyEnd("\"\\u00e9\"", 1) == 7;
    assert EscapeLength("\"\\u00g9\"", 1) == 0;
  }

  /** Keywords are matched with no word boundary. */
  lemma KeywordEdgeCases()
    ensures MatchKeyword("trueX") == Some(4)
    ensures MatchKeyword("nulls") == Some(4)
    ensures MatchKeyword("fals") == None
  {
    assert "trueX"[..4] == "true";
    assert "nulls"[..4] == "null";
    assert "nulls"[..4][0] == 'n' && "nulls"[..5][0] == 'n';
    assert "fals"[..4][0] == 'f';
  }
}
