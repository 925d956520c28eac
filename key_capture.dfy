/**
 * The key-capture hook `namedKey(style)`: a terminal that accepts String
 * tokens and, when it matches, records the key's text without its quotes
 * in the parser state's `name` field.
 */
module KeyCapture {
  import opened Wrappers
  import opened Lexer

  /** The hook's `match`: a key is any String token. */
  predicate Matches(token: Token)
  {
    token.kind == "String"
  }

  function Max(a: int, b: int): int { if a < b then b else a }

  function Min(a: int, b: int): int { if a < b then a else b }

  /**
   * JavaScript's `String.prototype.slice(start, end)`: a negative bound
   * counts from the end, bounds are clamped to the string, and an empty
   * range gives the empty string.
   */
  function Slice(s: string, start: int, end: int): (r: string)
    ensures 0 <= start <= end <= |s| ==> r == s[start..end]
    ensures 0 <= start <= |s| + end <= |s| && end < 0 ==> r == s[start..|s| + end]
    ensures start >= |s| || end == 0 || (end < 0 && |s| + end <= 0) ==> r == ""
    ensures |r| <= |s|
  {
    var from := if start < 0 then Max(|s| + start, 0) else Min(start, |s|);
    var to := if end < 0 then Max(|s| + end, 0) else Min(end, |s|);
    if from < to then s[from..to] else ""
  }

  /**
   * The key name captured from a token's text, `value.slice(1, -1)`: the
   * text without its first and its last character.
   */
  function KeyName(value: string): (r: string)
    ensures |value| >= 2 ==> value == [value[0]] + r + [value[|value| - 1]]
    ensures |value| < 2 ==> r == ""
  {
    Slice(value, 1, -1)
  }

  /** A key written as a terminated string token. */
  function Quote(name: string): (r: string)
  {
    "\"" + name + "\""
  }

  /** Capturing a quoted key gives back the key. */
  lemma KeyNameOfQuote(name: string)
    ensures KeyName(Quote(name)) == name
  {
    assert Quote(name)[1..|Quote(name)| - 1] == name;
  }

  /**
   * The name captured from a String token the lexer produced. When the
   * string is closed, the name is its whole body and quoting it gives the
   * token back. When it is left open at the end of the line, the name is
   * the body without its last character (empty for a lone `"`).
   */
  lemma {:induction false} KeyNameOfStringToken(s: string)
    requires MatchString(s).Some?
    ensures var n := MatchString(s).value;
            var body := s[1..StringBodyEnd(s, 1)];
            IsStringBody(body) &&
            if n == |body| + 2 then
              KeyName(s[..n]) == body && Quote(KeyName(s[..n])) == s[..n]
            else
              n == |body| + 1 && KeyName(s[..n]) == body[..Max(|body| - 1, 0)]
  {
    var e := StringBodyEnd(s, 1);
    var n := MatchString(s).value;
    var w := s[..n];
    if n == e + 1 {
      assert w[1..|w| - 1] == s[1..e];
      assert Quote(s[1..e]) == w;
    } else if e >= 2 {
      assert w[1..|w| - 1] == s[1..e][..e - 2];
    }
  }

  /** The `slice(1, -1)` of a closed key, an open key and a lone quote. */
  lemma KeyNameEdgeCases()
    ensures KeyName("\"k\"") == "k"
    ensures KeyName("\"ab") == "a"
    ensures KeyName("\"") == ""
  {
  }

  /** On the tokens the lexer produces, the hook matches exactly those that start with `"`. */
  lemma MatchesLexedString(s: string)
    requires NextToken(s).Some?
    ensures Matches(NextToken(s).value) <==> s[0] == '"'
  {
    var (k, n) := Lex(s).value;
    if s[0] == '"' {
      assert MatchRule(String, s).Some?;
    }
  }

  /**
   * The parser state the hook writes to. Only the fields the hook and its
   * callers rely on are kept: the captured key name (unset until the first
   * key), the nesting level, the indentation level and the name of the rule
   * being evaluated.
   */
  class State {
    var name: Option<string>
    var level: int
    var indentLevel: int
    var kind: string

    /** A fresh state: no key captured yet, at nesting level 0. */
    constructor (kind: string)
      ensures name == None && level == 0 && indentLevel == 0 && this.kind == kind
    {
      this.name := None;
      this.level := 0;
      this.indentLevel := 0;
      this.kind := kind;
    }
  }

  /**
   * The hook's `update`: overwrite `state.name` with the token text without
   * its quotes. Nothing else in the state changes.
   */
  method Update(state: State, token: Token)
    modifies state
    ensures state.name == Some(KeyName(token.value))
    ensures state.level == old(state.level) && state.indentLevel == old(state.indentLevel)
    ensures state.kind == old(state.kind)
  {
    state.name := Some(KeyName(token.value));
  }
}
