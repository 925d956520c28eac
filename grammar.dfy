/**
 * The grammar rule table of the "graphql-variables" mode: JSON-like
 * productions, written as data, and the `Value` rule, which picks the next
 * production from the kind and text of the upcoming token.
 *
 * The combinators `p`, `t`, `list` and `opt` come from the online-parser
 * library and appear here only as constructors of Step. How a terminal
 * accepts a token is given by Accepts: `p(text)` takes a Punctuation token
 * with that text, `t(kind, style)` any token of that kind, and a key-capture
 * step what KeyCapture.Matches takes.
 */
module Grammar {
  import opened Lexer
  import KeyCapture

  type RuleName = string

  /** What `Value` returns: a rule name, `null`, or `undefined` (falling off the switch). */
  datatype Selection = Rule(name: RuleName) | Null | Undefined

  datatype Step =
    | Punct(text: string)                   // p(text)
    | Term(kind: string, style: string)     // t(kind, style)
    | NamedKey(style: string)               // namedKey(style)
    | Ref(name: RuleName)                   // a rule name
    | List(item: RuleName, separator: Step) // list(item, separator)
    | Opt(step: Step)                       // opt(step)

  /** A production is a sequence of steps; `Value` is a function of the next token. */
  datatype Rule = Production(steps: seq<Step>) | Dispatch(select: Token -> Selection)

  /** The token kinds the lexical rule set produces. */
  const LexedKinds: set<string> := {"Punctuation", "Number", "String", "Keyword"}

  /** The productions `Value` can select. */
  const ValueRules: set<RuleName> :=
    {"NumberValue", "StringValue", "BooleanValue", "NullValue", "ListValue", "ObjectValue"}

  /** The `Value` rule: choose the production for the upcoming value from its first token. */
  function Value(token: Token): (r: Selection)
    ensures r.Rule? ==> r.name in ValueRules
    ensures r.Undefined? <==> token.kind !in LexedKinds
    ensures r.Null? <==>
              (token.kind == "Punctuation" && token.value != "[" && token.value != "{") ||
              (token.kind == "Keyword" && !IsKeywordLexeme(token.value))
  {
    if token.kind == "Number" then Rule("NumberValue")
    else if token.kind == "String" then Rule("StringValue")
    else if token.kind == "Punctuation" then
      if token.value == "[" then Rule("ListValue")
      else if token.value == "{" then Rule("ObjectValue")
      else Null
    else if token.kind == "Keyword" then
      if token.value == "true" || token.value == "false" then Rule("BooleanValue")
      else if token.value == "null" then Rule("NullValue")
      else Null
    else Undefined
  }

  const ParseRules: map<RuleName, Rule> := map[
    "Document" := Production([Punct("{"), List("Variable", Opt(Punct(","))), Punct("}")]),
    "Variable" := Production([NamedKey("variable"), Punct(":"), Ref("Value")]),
    "Value" := Dispatch(Value),
    "NumberValue" := Production([Term("Number", "number")]),
    "StringValue" := Production([Term("String", "string")]),
    "BooleanValue" := Production([Term("Keyword", "builtin")]),
    "NullValue" := Production([Term("Keyword", "keyword")]),
    "ListValue" := Production([Punct("["), List("Value", Opt(Punct(","))), Punct("]")]),
    "ObjectValue" := Production([Punct("{"), List("ObjectField", Opt(Punct(","))), Punct("}")]),
    "ObjectField" := Production([NamedKey("attribute"), Punct(":"), Ref("Value")])
  ]

  /** Whether a terminal step accepts a token; non-terminal steps accept none. */
  predicate Accepts(step: Step, token: Token)
  {
    match step
    case Punct(text) => token.kind == "Punctuation" && token.value == text
    case Term(kind, _) => token.kind == kind
    case NamedKey(_) => KeyCapture.Matches(token)
    case _ => false
  }

  /** The rule names a step refers to. */
  function StepRefs(step: Step): set<RuleName>
  {
    match step
    case Ref(name) => {name}
    case List(item, separator) => {item} + StepRefs(separator)
    case Opt(inner) => StepRefs(inner)
    case _ => {}
  }

  /** Every name a production refers to, or a dispatch rule can select, is a rule of the table. */
  ghost predicate Closed(table: map<RuleName, Rule>)
  {
    (forall name, step | name in table && table[name].Production? && step in table[name].steps ::
       StepRefs(step) <= table.Keys) &&
    (forall name, token | name in table && table[name].Dispatch? && table[name].select(token).Rule? ::
       table[name].select(token).name in table)
  }

  /** A production that opens with `open` and closes with `close`. */
  predicate Delimited(rule: Rule, open: string, close: string)
  {
    rule.Production? && |rule.steps| >= 2 &&
    rule.steps[0] == Punct(open) && rule.steps[|rule.steps| - 1] == Punct(close)
  }

  /** The grammar table is closed. */
  lemma ParseRulesClosed()
    ensures Closed(ParseRules)
  {
    forall name, token | name in ParseRules && ParseRules[name].Dispatch? && ParseRules[name].select(token).Rule?
      ensures ParseRules[name].select(token).name in ParseRules
    {
      assert name == "Value";
    }
  }

  /**
   * The production `Value` selects begins with a terminal that accepts the
   * very token it was selected for; leaf values are styled `number`,
   * `string`, `builtin` (true and false) and `keyword` (null).
   */
  lemma ValueSelectsAcceptingRule(token: Token)
    requires Value(token).Rule?
    ensures var rule := ParseRules[Value(token).name];
            rule.Production? && |rule.steps| > 0 && Accepts(rule.steps[0], token)
    ensures token.kind == "Number" ==> ParseRules[Value(token).name] == Production([Term("Number", "number")])
    ensures token.kind == "String" ==> ParseRules[Value(token).name] == Production([Term("String", "string")])
    ensures token.kind == "Keyword" && token.value != "null" ==>
              ParseRules[Value(token).name] == Production([Term("Keyword", "builtin")])
    ensures token.kind == "Keyword" && token.value == "null" ==>
              ParseRules[Value(token).name] == Production([Term("Keyword", "keyword")])
  {
  }

  /**
   * On every token the lexer produces, `Value` never falls off its switch,
   * and chooses no rule exactly for the punctuation that cannot start a
   * value: `]`, `}`, `:` and `,`.
   */
  lemma LexedTokenDispatch(s: string)
    requires NextToken(s).Some?
    ensures var token := NextToken(s).value;
            !Value(token).Undefined? &&
            (Value(token).Null? <==> token.kind == "Punctuation" && s[0] in "]}:,")
  {
    var token := NextToken(s).value;
    assert token.value[0] == s[0];
  }

  /**
   * `Document` and `ObjectValue` are enclosed in braces and `ListValue` in
   * brackets, each listing its items with optional `,` separators. A key is
   * captured as the first step of `Variable` (style `variable`, listed by
   * `Document`) and of `ObjectField` (style `attribute`, listed by
   * `ObjectValue`), and by no other step.
   */
  lemma GrammarShape()
    ensures Delimited(ParseRules["Document"], "{", "}")
    ensures Delimited(ParseRules["ObjectValue"], "{", "}")
    ensures Delimited(ParseRules["ListValue"], "[", "]")
    ensures ParseRules["Document"].steps[1] == List("Variable", Opt(Punct(",")))
    ensures ParseRules["ObjectValue"].steps[1] == List("ObjectField", Opt(Punct(",")))
    ensures ParseRules["ListValue"].steps[1] == List("Value", Opt(Punct(",")))
    ensures ParseRules["Variable"].Production? && |ParseRules["Variable"].steps| > 0 &&
            ParseRules["Variable"].steps[0] == NamedKey("variable")
    ensures ParseRules["ObjectField"].Production? && |ParseRules["ObjectField"].steps| > 0 &&
            ParseRules["ObjectField"].steps[0] == NamedKey("attribute")
    ensures forall name, i | name in ParseRules && ParseRules[name].Production? &&
                             0 <= i < |ParseRules[name].steps| && ParseRules[name].steps[i].NamedKey? ::
              i == 0 &&
              ((name == "Variable" && ParseRules[name].steps[i].style == "variable") ||
               (name == "ObjectField" && ParseRules[name].steps[i].style == "attribute"))
  {
  }
}
