# graphql-variables mode: lexical rules, grammar table and key capture

This project models the core of the "graphql-variables" editor mode of
codemirror-graphql. That mode highlights a JSON document of GraphQL
variables. It is made of three pieces, each modelled here:

- **The lexical rule set** (`LexRules`), in module `Lexer`. There are four
  token matchers: Punctuation, Number, String and Keyword. Each one is a
  hand-written prefix matcher over `string` that returns the length of its
  match, or `None`. Each rule's language is also defined on its own
  (`IsPunctuationLexeme`, `IsNumberLexeme`, `IsStringLexeme`,
  `IsKeywordLexeme`). The matchers are proved to return the longest prefix in
  that language, and `None` exactly when no prefix is in it. For these four
  patterns, the greedy first match of the regular expression is that longest
  prefix. The rules are disjoint on their first character, so the order in
  which they are tried does not matter.
- **The grammar rule table** (`ParseRules`) and its `Value` dispatch, in
  module `Grammar`. The productions are data. The combinators `p`, `t`, `list`
  and `opt` are constructors of `Step`. `Value` returns a rule name, `Null`
  (the source's `null`) or `Undefined` (falling off the `switch`). The table
  is proved closed: every name a production refers to, and every name `Value`
  can return, is a rule of the table.
- **The key-capture hook** `namedKey`, in module `KeyCapture`. Its `match`
  takes String tokens. Its `update` overwrites the parser state's `name` with
  `token.value.slice(1, -1)`. JavaScript's `slice` is modelled with its
  negative and clamped bounds. `Update(state, token)` is a method that
  changes `state.name` and nothing else of the `State` object it is given.

Anchoring of the Punctuation and Keyword patterns: in `/^\[|]|\{|\}|:|,/` and
`/^true|false|null/` the `^` binds only to the first alternative. Whether a
match found further along the line counts is decided by the stream's `match`
call in the online parser, which is not part of this model. Every matcher
here matches at the current scan position only.

The terminals `p(text)` and `t(kind, style)` accept tokens as the
online-parser library defines them: `p` takes a Punctuation token with that
exact text, and `t` takes any token of that kind. That library is not part
of this model. `Grammar.Accepts` states this behaviour, and only the lemmas
about which step accepts which token rely on it.

Some points where the code's behaviour is easy to misread:

- The comment at mode.ts:50 says the lexer rules are exactly as the JSON
  specification describes them. Even so, the Number fraction `\.[0-9]*`
  accepts `1.` as a whole number token.
- The Keyword pattern has no word-boundary check, so `trueX` yields the token
  `true`.
- `Value` returns `null` for Punctuation other than `[`/`{` and for a Keyword
  other than `true`/`false`/`null`. It returns `undefined` for every other
  token kind, by falling off its `switch`. `Selection` keeps the two apart.
- The `// Remove quotes.` at mode.ts:112 removes the first and last
  characters of the token text, whatever they are. For an unterminated `"ab`
  the name is `a`.

Files: `wrappers.dfy` (Option), `lexer.dfy`, `key_capture.dfy`, `grammar.dfy`.

## Model

| member | source | states |
|---|---|---|
| `Lexer.MatchPunctuation` | codemirror-graphql/src/variables/mode.ts:54 | The rule matches exactly when the input starts with one of `[]{}:,`, and the match is that one character. `MatchIsLongestPrefix` states the rest. |
| `Lexer.MatchNumber` | codemirror-graphql/src/variables/mode.ts:57 | The rule matches exactly when the input starts with a digit, or with `-` and a digit. The match stays within the input and covers at least that digit. `MatchIsLongestPrefix` states the rest. |
| `Lexer.MatchString` | codemirror-graphql/src/variables/mode.ts:60 | The rule matches exactly when the input starts with `"`, so an unterminated string still matches. The match stays within the input. `MatchIsLongestPrefix` states the rest. |
| `Lexer.MatchKeyword` | codemirror-graphql/src/variables/mode.ts:63 | The match is exactly `true`, `false` or `null`. The rule fails only when no prefix of the input is one of them. |
| `Lexer.MatchIsLongestPrefix` | codemirror-graphql/src/variables/mode.ts:52-64 | For each of the four rules, a match is a prefix in the rule's language, and no longer prefix is in it. The matcher returns None only when no prefix at all is in the language. |
| `Lexer.MatchRule` | codemirror-graphql/src/variables/mode.ts:52-64 | A match is non-empty and within the input. It starts with one of `[]{}:,` (Punctuation), `-` or a digit (Number), `"` (String), or `t`/`f`/`n` (Keyword). |
| `Lexer.Lex` | codemirror-graphql/src/variables/mode.ts:52-64 | Trying the rules in declaration order picks whichever rule matches: at most one rule matches at any position. |
| `Lexer.NextToken` | codemirror-graphql/src/variables/mode.ts:52-64 | A token exists exactly when some rule matches. Its kind is the name of a rule that matches, and its text is exactly that rule's match, a non-empty prefix of the input. A Punctuation token is one character of `[]{}:,`. A Keyword token is exactly `true`, `false` or `null`. |
| `Lexer.DigitsEnd` | codemirror-graphql/src/variables/mode.ts:57 | `[0-9]*` is greedy: every character it takes is a digit, and the character after the run is not a digit. |
| `Lexer.IntegerEnd` | codemirror-graphql/src/variables/mode.ts:57 | What the matcher takes as the integer part is `0`, or a non-zero digit followed by digits. |
| `Lexer.FractionEnd` | codemirror-graphql/src/variables/mode.ts:57 | What the matcher takes as the fraction is empty, or `.` followed by zero or more digits. |
| `Lexer.ExponentEnd` | codemirror-graphql/src/variables/mode.ts:57 | What the matcher takes as the exponent is empty, or `e`/`E`, an optional sign and at least one digit. |
| `Lexer.NumberSound` | codemirror-graphql/src/variables/mode.ts:57 | The Number match splits into an optional `-`, an integer part, a fraction and an exponent. |
| `Lexer.NumberLongest` | codemirror-graphql/src/variables/mode.ts:57 | No longer prefix is a number. If any prefix is a number, the matcher finds one. |
| `Lexer.DigitsMaximal` | codemirror-graphql/src/variables/mode.ts:57 | No run of digits from a position goes past the run the matcher takes. |
| `Lexer.ExponentMaximal` | codemirror-graphql/src/variables/mode.ts:57 | No exponent from a position goes past the exponent the matcher takes. |
| `Lexer.FractionTailBounded` | codemirror-graphql/src/variables/mode.ts:57 | No fraction followed by an exponent goes past the end the matcher reaches. |
| `Lexer.IntegerTailBounded` | codemirror-graphql/src/variables/mode.ts:57 | No integer part, fraction and exponent go past the end the matcher reaches, and each starts with a digit. |
| `Lexer.NothingAfterDigit` | codemirror-graphql/src/variables/mode.ts:57 | A fraction or an exponent cannot begin at a digit: after an integer part or fraction that stops early, the number ends. |
| `Lexer.NumberEdgeCases` | codemirror-graphql/src/variables/mode.ts:57 | `-` fails. `01` matches only `0`. `1.` matches whole. `1e` and `1e+` match only `1`. `-0.5E-10` matches whole. |
| `Lexer.EscapeLength` | codemirror-graphql/src/variables/mode.ts:60 | A length of 2 is a backslash and one of `"/\bfnrt`. A length of 6 is `\u` and four hex digits. Either lies within the input. A length of 0 at a backslash means no string body can start there. |
| `Lexer.StringBodyEnd` | codemirror-graphql/src/variables/mode.ts:60 | The body is a run of plain characters and valid escapes. It stops only at a `"`, at a backslash that starts no valid escape, or at the end of the input. |
| `Lexer.StringBodyMaximal` | codemirror-graphql/src/variables/mode.ts:60 | No string body from a position goes past the body the matcher takes, and none ends before a `"` that the matcher skipped. |
| `Lexer.StringSound` | codemirror-graphql/src/variables/mode.ts:60 | The String match is `"`, a body, and an optional closing `"`. |
| `Lexer.StringLongest` | codemirror-graphql/src/variables/mode.ts:60 | No longer prefix is a string token. An unterminated string is still matched. |
| `Lexer.StringEdgeCases` | codemirror-graphql/src/variables/mode.ts:60 | The match stops after the first closing quote. An unterminated `"ab` and a lone `"` match whole. |
| `Lexer.EscapeEdgeCases` | codemirror-graphql/src/variables/mode.ts:60 | `\q` ends the match before the backslash. `\u` needs exactly four hex digits. |
| `Lexer.KeywordLongest` | codemirror-graphql/src/variables/mode.ts:63 | If a prefix is `true`, `false` or `null`, the Keyword matcher takes it. |
| `Lexer.KeywordEdgeCases` | codemirror-graphql/src/variables/mode.ts:63 | There is no word-boundary check: `trueX` matches `true` and `nulls` matches `null`. `fals` does not match. |
| `Grammar.Value` | codemirror-graphql/src/variables/mode.ts:72-96 | The result is `Undefined` exactly for token kinds outside the four lexical rules. It is `Null` exactly for Punctuation other than `[`/`{` and for a Keyword other than `true`/`false`/`null`. Any rule it selects is one of the six value productions. |
| `Grammar.ParseRules` | codemirror-graphql/src/variables/mode.ts:69-104 | The production table as data, entry by entry as in the source. `ParseRulesClosed` and `GrammarShape` state its properties. |
| `Grammar.ParseRulesClosed` | codemirror-graphql/src/variables/mode.ts:69-104 | Every rule name referenced in a production (`Variable`, `Value`, `ObjectField`), and every name `Value` can return for any token, is a key of the table. |
| `Grammar.ValueSelectsAcceptingRule` | codemirror-graphql/src/variables/mode.ts:72-100 | The production `Value` selects begins with a terminal that accepts the token it was selected for. Numbers get style `number`, strings `string`, `true`/`false` `builtin`, and `null` `keyword`. |
| `Grammar.LexedTokenDispatch` | codemirror-graphql/src/variables/mode.ts:78-95 | On any token the lexer produces, `Value` never falls off its switch. It chooses no rule exactly for the punctuation `]`, `}`, `:` and `,`. |
| `Grammar.GrammarShape` | codemirror-graphql/src/variables/mode.ts:70-103 | `Document` and `ObjectValue` are delimited by `{`…`}`, and `ListValue` by `[`…`]`. Each lists its items (`Variable`, `ObjectField`, `Value`) with an optional `,` separator. The first step of `Variable` captures a key with style `variable`, and the first step of `ObjectField` captures one with style `attribute`. No other step captures a key. |
| `KeyCapture.KeyName` | codemirror-graphql/src/variables/mode.ts:112 | For text of length two or more, the captured name is the text without its first and last characters. Otherwise it is empty. |
| `KeyCapture.Slice` | codemirror-graphql/src/variables/mode.ts:112 | JavaScript `slice`: with bounds in range, the result is that range of the input. A negative end counts back from the end of the input. A start past the end, an end of 0, or an end that counts back past the start of the input gives the empty string. The result is never longer than the input. |
| `KeyCapture.KeyNameOfQuote` | codemirror-graphql/src/variables/mode.ts:112 | Capturing a quoted key gives back the key. |
| `KeyCapture.KeyNameEdgeCases` | codemirror-graphql/src/variables/mode.ts:112 | `"k"` gives `k`. `"ab` gives `a`. `"` gives the empty string. |
| `KeyCapture.KeyNameOfStringToken` | codemirror-graphql/src/variables/mode.ts:107-114 | For a lexed closed string, the name is its whole body and quoting the name restores the token. For an open string, the name is the body without its last character. |
| `KeyCapture.MatchesLexedString` | codemirror-graphql/src/variables/mode.ts:110 | On lexed tokens, the hook's `match` holds exactly when the token starts with `"`, that is, for String tokens. |
| `KeyCapture.Matches` | codemirror-graphql/src/variables/mode.ts:110 | No contract of its own: the hook's `match` is true exactly for String tokens. `MatchesLexedString` states what that means for lexed tokens. |
| `KeyCapture.State.constructor` | codemirror-graphql/src/variables/mode.ts:111 | The class stands for the `State` object that the hook's `update` receives. The constructor's starting values (no key captured, level 0) follow the online-parser library's start state, which is not part of this model. |
| `KeyCapture.Update` | codemirror-graphql/src/variables/mode.ts:111-113 | `state.name` becomes `KeyName` of the token text: the text without its first and last characters, whatever they are, so `"ab` gives `a`. No other state field changes. |

## Left out

- The `CodeMirror.defineMode` registration and its configuration: `electricInput`, `fold`, `closeBrackets` and the `tabSize` pass-through (mode.ts:27-47). This is editor glue with no logic.
- The `onlineParser` engine and the `list`/`opt`/`p`/`t` combinators (mode.ts:12-20). These come from graphql-language-service, which is not part of this model. That covers the rule stack, whitespace skipping, error recovery, `level` bookkeeping and style emission. The combinators appear only as `Step` constructors. `Grammar.Accepts` gives only the token test of `p` and `t`.
- The `indent` function (mode.ts:21). It is in `../utils/mode-indent`, which is not part of this model.
- The `State` type comes from graphql-language-service. `KeyCapture.State` keeps only `name`, `level`, `indentLevel` and `kind`. The rule stack and the engine's other fields are left out.
- A general regular-expression engine. Each of the four patterns is hand-coded as a matcher.
- JavaScript strings are sequences of UTF-16 code units, but here a `string` is a sequence of Unicode characters. For text outside the Basic Multilingual Plane, match lengths and `slice(1, -1)` would count differently. The model does not capture that.
- The unanchored alternatives of the Punctuation and Keyword patterns: matches are modelled at the scan position only (see above).
