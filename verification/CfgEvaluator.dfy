/** Three-valued evaluation of conditional-compilation predicates as the
    production build sees them. */
module CfgEvaluator {
  import opened Results

  datatype Token = All | Any | Not | Open | Close | Comma | Name(name: string)

  /** False and true in every production build, or depending on other options. */
  datatype Value = False | True | Unknown

  const OFF_IN_PRODUCTION: set<string> := {"test", "feature = \"testing\""}

  function AllOf(values: seq<Value>): Value {
    if False in values then False else if Unknown in values then Unknown else True
  }

  function AnyOf(values: seq<Value>): Value {
    if True in values then True else if Unknown in values then Unknown else False
  }

  function NotOf(value: Value): Value {
    match value
    case False => True
    case True => False
    case Unknown => Unknown
  }

  predicate Keyword(t: Token) {
    t == All || t == Any || t == Not
  }

  function OptionValue(t: Token): Value
    requires !Keyword(t)
  {
    if t.Name? && t.name in OFF_IN_PRODUCTION then False else Unknown
  }

  /** Combines the arguments of a keyword; `not` without one is an error. */
  function Combine(t: Token, values: seq<Value>): Option<Value>
    requires Keyword(t)
  {
    if t == Not then (if values == [] then None else Some(NotOf(values[0])))
    else Some(if t == All then AllOf(values) else AnyOf(values))
  }

  // ---------------------------------------------------------------- parsing by position

  datatype Parsed<+V> = Parsed(value: V, next: nat)

  /** The predicate that starts at a token, and where it ends; `None` when the
      tokens run out. */
  function ParseAt(tokens: seq<Token>, at: nat): (r: Option<Parsed<Value>>)
    ensures r.Some? ==> at < r.value.next <= |tokens|
    decreases |tokens| - at, 0
  {
    if at >= |tokens| then None
    else if !Keyword(tokens[at]) then Some(Parsed(OptionValue(tokens[at]), at + 1))
    else
      var arguments := ParseList(tokens, at + 2);
      if arguments.None? then None
      else
        var value := Combine(tokens[at], arguments.value.value);
        if value.None? then None else Some(Parsed(value.value, arguments.value.next))
  }

  /** The arguments up to and including the closing parenthesis. */
  function ParseList(tokens: seq<Token>, at: nat): (r: Option<Parsed<seq<Value>>>)
    ensures r.Some? ==> at < r.value.next <= |tokens|
    decreases |tokens| - at, 1
  {
    if at >= |tokens| then None
    else if tokens[at] == Close then Some(Parsed([], at + 1))
    else
      var first := ParseAt(tokens, at);
      if first.None? || first.value.next >= |tokens| then None
      else
        var rest := ParseList(tokens, SkipComma(tokens, first.value.next));
        if rest.None? then None else Some(Parsed([first.value.value] + rest.value.value, rest.value.next))
  }

  function SkipComma(tokens: seq<Token>, at: nat): nat
    requires at < |tokens|
  {
    if tokens[at] == Comma then at + 1 else at
  }

  // ---------------------------------------------------------------- the cursor parser

  class Parser {
    const tokens: seq<Token>
    var at: nat

    constructor (tokens: seq<Token>)
      ensures this.tokens == tokens && at == 0
    {
      this.tokens := tokens;
      at := 0;
    }

    /** Parses and evaluates from the cursor, which ends behind the predicate. */
    method Parse() returns (r: Option<Value>)
      modifies this
      decreases |tokens| - at
      ensures var spec := ParseAt(tokens, old(at));
              r.Some? == spec.Some? && (r.Some? ==> r.value == spec.value.value && at == spec.value.next)
    {
      if at >= |tokens| {
        return None;
      }
      var token := tokens[at];
      at := at + 1;
      if !Keyword(token) {
        return Some(OptionValue(token));
      }
      at := at + 1;
      var values := [];
      ghost var start := at;
      while at < |tokens| && tokens[at] != Close
        invariant start <= at
        invariant Continues(tokens, start, at, values)
        decreases |tokens| - at
      {
        ghost var (before, sofar) := (at, values);
        var value := Parse();
        if value.None? || at >= |tokens| {
          StopsShort(tokens, start, before, sofar);
          return None;
        }
        ContinuesStep(tokens, start, before, sofar);
        values := values + [value.value];
        if tokens[at] == Comma {
          at := at + 1;
        }
      }
      if at >= |tokens| {
        ListEnds(tokens, start, at, values);
        return None;
      }
      ListEnds(tokens, start, at, values);
      at := at + 1;
      r := Combine(token, values);
    }
  }

  /** Parsing the list from `start` is parsing it from `at` after `values`. */
  ghost predicate Continues(tokens: seq<Token>, start: nat, at: nat, values: seq<Value>) {
    var (whole, rest) := (ParseList(tokens, start), ParseList(tokens, at));
    whole.Some? == rest.Some? && (whole.Some? ==> whole.value.value == values + rest.value.value && whole.value.next == rest.value.next)
  }

  lemma ContinuesStep(tokens: seq<Token>, start: nat, at: nat, values: seq<Value>)
    requires Continues(tokens, start, at, values) && at < |tokens| && tokens[at] != Close
    requires ParseAt(tokens, at).Some? && ParseAt(tokens, at).value.next < |tokens|
    ensures Continues(tokens, start, SkipComma(tokens, ParseAt(tokens, at).value.next), values + [ParseAt(tokens, at).value.value])
  {
    hide ParseAt;
    var (first, rest) := (ParseAt(tokens, at).value, ParseList(tokens, SkipComma(tokens, ParseAt(tokens, at).value.next)));
    if rest.Some? {
      assert values + ([first.value] + rest.value.value) == values + [first.value] + rest.value.value;
    }
  }

  lemma StopsShort(tokens: seq<Token>, start: nat, at: nat, values: seq<Value>)
    requires Continues(tokens, start, at, values) && at < |tokens| && tokens[at] != Close
    requires ParseAt(tokens, at).None? || ParseAt(tokens, at).value.next >= |tokens|
    ensures ParseList(tokens, start).None?
  {
  }

  lemma ListEnds(tokens: seq<Token>, start: nat, at: nat, values: seq<Value>)
    requires Continues(tokens, start, at, values) && (at >= |tokens| || tokens[at] == Close)
    ensures ParseList(tokens, start) == if at >= |tokens| then None else Some(Parsed(values, at + 1))
  {
    assert values + [] == values;
  }

  /** What the production build makes of a token sequence. */
  function ValueIn(tokens: seq<Token>): Value {
    if ParseAt(tokens, 0).Some? then ParseAt(tokens, 0).value.value else Unknown
  }

  method ProductionValue(tokens: seq<Token>) returns (v: Value)
    ensures v == ValueIn(tokens)
  {
    var parser := new Parser(tokens);
    var parsed := parser.Parse();
    v := if parsed.Some? then parsed.value else Unknown;
  }
}
