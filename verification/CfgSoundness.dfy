/** What a gate promises: predicates, their token form, and the builds in
    which they hold. */
module CfgSoundness {
  import opened Results
  import opened CfgEvaluator

  datatype Pred =
    | Atom(name: string)
    | AllOfThem(arguments: Preds, trailing: bool)
    | AnyOfThem(arguments: Preds, trailing: bool)
    | Negation(argument: Pred, trailing: bool)

  datatype Preds = Nil | Cons(head: Pred, tail: Preds)

  // ---------------------------------------------------------------- token form

  function MaybeComma(trailing: bool): seq<Token> {
    if trailing then [Comma] else []
  }

  /** A keyword with its arguments in parentheses. */
  function Group(keyword: Token, arguments: seq<Token>): (r: seq<Token>)
    ensures |r| == |arguments| + 3 && r[0] == keyword
  {
    [keyword, Open] + arguments + [Close]
  }

  /** The tokens of a well-formed predicate. */
  function Render(p: Pred): (r: seq<Token>)
    ensures |r| > 0 && r[0] != Close
  {
    match p
    case Atom(name) => [Name(name)]
    case AllOfThem(ps, trailing) => Group(All, RenderList(ps, trailing))
    case AnyOfThem(ps, trailing) => Group(Any, RenderList(ps, trailing))
    case Negation(q, trailing) => Group(Not, Render(q) + MaybeComma(trailing))
  }

  /** Arguments separated by commas, with or without one at the end. */
  function RenderList(ps: Preds, trailing: bool): seq<Token> {
    match ps
    case Nil => []
    case Cons(p, Nil) => Render(p) + MaybeComma(trailing)
    case Cons(p, rest) => Render(p) + ([Comma] + RenderList(rest, trailing))
  }

  function Eval(p: Pred): Value {
    match p
    case Atom(name) => if name in OFF_IN_PRODUCTION then False else Unknown
    case AllOfThem(ps, _) => AllOf(Evals(ps))
    case AnyOfThem(ps, _) => AnyOf(Evals(ps))
    case Negation(q, _) => NotOf(Eval(q))
  }

  function Evals(ps: Preds): seq<Value> {
    match ps
    case Nil => []
    case Cons(p, rest) => [Eval(p)] + Evals(rest)
  }

  /** The tokens at `at` are `part`. */
  ghost predicate Reads(tokens: seq<Token>, at: nat, part: seq<Token>) {
    at + |part| <= |tokens| && tokens[at..at + |part|] == part
  }

  lemma ReadsParts(tokens: seq<Token>, at: nat, a: seq<Token>, b: seq<Token>)
    requires Reads(tokens, at, a + b)
    ensures Reads(tokens, at, a) && Reads(tokens, at + |a|, b)
  {
    var s := tokens[at..at + |a + b|];
    assert tokens[at..at + |a|] == s[..|a|] == a;
    assert tokens[at + |a|..at + |a| + |b|] == s[|a|..] == b;
  }

  lemma ReadsFirst(tokens: seq<Token>, at: nat, a: seq<Token>)
    requires Reads(tokens, at, a) && a != []
    ensures at < |tokens| && tokens[at] == a[0]
  {
    assert tokens[at..at + |a|][0] == a[0];
  }

  lemma ReadsGroup(tokens: seq<Token>, at: nat, keyword: Token, arguments: seq<Token>)
    requires Reads(tokens, at, Group(keyword, arguments))
    ensures at < |tokens| && tokens[at] == keyword && Reads(tokens, at + 2, arguments)
    ensures at + 2 + |arguments| < |tokens| && tokens[at + 2 + |arguments|] == Close
  {
    ReadsParts(tokens, at, [keyword, Open] + arguments, [Close]);
    ReadsParts(tokens, at, [keyword, Open], arguments);
    ReadsFirst(tokens, at, [keyword, Open]);
    ReadsFirst(tokens, at + 2 + |arguments|, [Close]);
  }

  lemma ParsesGroup(tokens: seq<Token>, at: nat, keyword: Token, arguments: seq<Token>, values: seq<Value>)
    requires Keyword(keyword) && Reads(tokens, at, Group(keyword, arguments))
    requires ParseList(tokens, at + 2) == Some(Parsed(values, at + 2 + |arguments| + 1))
    requires keyword == Not ==> values != []
    ensures ParseAt(tokens, at) == Some(Parsed(Combine(keyword, values).value, at + |Group(keyword, arguments)|))
  {
    hide ParseList, Reads;
    ReadsGroup(tokens, at, keyword, arguments);
  }

  /** The cursor parser consumes exactly the predicate and yields its value. */
  lemma {:induction false} ParsesPredicate(tokens: seq<Token>, at: nat, p: Pred)
    requires Reads(tokens, at, Render(p))
    ensures ParseAt(tokens, at) == Some(Parsed(Eval(p), at + |Render(p)|))
    decreases p
  {
    RenderedForm(p);
    hide ParseAt, ParseList, Reads, Render, RenderList, Eval, Evals, Group, AllOf, AnyOf, NotOf;
    match p
    case Atom(name) =>
      ParsesAtom(tokens, at, name);
    case AllOfThem(ps, trailing) =>
      ReadsGroup(tokens, at, All, RenderList(ps, trailing));
      ParsesArguments(tokens, at + 2, ps, trailing);
      ParsesGroup(tokens, at, All, RenderList(ps, trailing), Evals(ps));
    case AnyOfThem(ps, trailing) =>
      ReadsGroup(tokens, at, Any, RenderList(ps, trailing));
      ParsesArguments(tokens, at + 2, ps, trailing);
      ParsesGroup(tokens, at, Any, RenderList(ps, trailing), Evals(ps));
    case Negation(q, trailing) =>
      var argument := Render(q) + MaybeComma(trailing);
      ReadsGroup(tokens, at, Not, argument);
      ReadsParts(tokens, at + 2, Render(q), MaybeComma(trailing));
      ParsesPredicate(tokens, at + 2, q);
      ParsesLast(tokens, at + 2, q, trailing);
      ParsesGroup(tokens, at, Not, argument, [Eval(q)]);
  }

  lemma RenderedForm(p: Pred)
    ensures p.Atom? ==> Render(p) == [Name(p.name)]
    ensures p.AllOfThem? ==> Render(p) == Group(All, RenderList(p.arguments, p.trailing)) && Eval(p) == AllOf(Evals(p.arguments))
    ensures p.AnyOfThem? ==> Render(p) == Group(Any, RenderList(p.arguments, p.trailing)) && Eval(p) == AnyOf(Evals(p.arguments))
    ensures p.Negation? ==> Render(p) == Group(Not, Render(p.argument) + MaybeComma(p.trailing)) && Eval(p) == NotOf(Eval(p.argument))
  {
    hide Group, RenderList, Evals;
  }

  lemma ParsesAtom(tokens: seq<Token>, at: nat, name: string)
    requires Reads(tokens, at, [Name(name)])
    ensures ParseAt(tokens, at) == Some(Parsed(Eval(Atom(name)), at + 1))
  {
    ReadsFirst(tokens, at, [Name(name)]);
  }

  /** A single argument, then the closing parenthesis. */
  lemma ParsesLast(tokens: seq<Token>, at: nat, p: Pred, trailing: bool)
    requires Reads(tokens, at, Render(p) + MaybeComma(trailing))
    requires ParseAt(tokens, at) == Some(Parsed(Eval(p), at + |Render(p)|))
    requires at + |Render(p) + MaybeComma(trailing)| < |tokens| && tokens[at + |Render(p) + MaybeComma(trailing)|] == Close
    ensures ParseList(tokens, at) == Some(Parsed([Eval(p)], at + |Render(p) + MaybeComma(trailing)| + 1))
  {
    hide ParseAt, Eval, Reads, Render;
    ReadsParts(tokens, at, Render(p), MaybeComma(trailing));
    ReadsFirst(tokens, at, Render(p));
    var end := at + |Render(p)| + |MaybeComma(trailing)|;
    assert ParseList(tokens, end) == Some(Parsed([], end + 1));
    if trailing {
      ReadsFirst(tokens, at + |Render(p)|, [Comma]);
    }
    assert [Eval(p)] + [] == [Eval(p)];
  }

  lemma {:induction false} ParsesArguments(tokens: seq<Token>, at: nat, ps: Preds, trailing: bool)
    requires Reads(tokens, at, RenderList(ps, trailing))
    requires at + |RenderList(ps, trailing)| < |tokens| && tokens[at + |RenderList(ps, trailing)|] == Close
    ensures ParseList(tokens, at) == Some(Parsed(Evals(ps), at + |RenderList(ps, trailing)| + 1))
    decreases ps
  {
    RenderedParts(ps, trailing);
    hide ParseAt, ParseList, Reads, Render, RenderList, Eval, Evals;
    match ps
    case Nil =>
      ParsesNothing(tokens, at);
    case Cons(p, Nil) =>
      ReadsParts(tokens, at, Render(p), MaybeComma(trailing));
      ParsesPredicate(tokens, at, p);
      ParsesLast(tokens, at, p, trailing);
    case Cons(p, rest) =>
      var more := RenderList(rest, trailing);
      ReadsParts(tokens, at, Render(p), [Comma] + more);
      ReadsParts(tokens, at + |Render(p)|, [Comma], more);
      ParsesPredicate(tokens, at, p);
      ParsesArguments(tokens, at + |Render(p)| + 1, rest, trailing);
      ParsesMore(tokens, at, p, Evals(rest), at + |Render(p)| + 1 + |more| + 1);
  }

  lemma RenderedParts(ps: Preds, trailing: bool)
    ensures ps.Nil? ==> RenderList(ps, trailing) == [] && Evals(ps) == []
    ensures ps.Cons? && ps.tail.Nil? ==> RenderList(ps, trailing) == Render(ps.head) + MaybeComma(trailing) && Evals(ps) == [Eval(ps.head)]
    ensures ps.Cons? && ps.tail.Cons? ==> RenderList(ps, trailing) == Render(ps.head) + ([Comma] + RenderList(ps.tail, trailing))
    ensures ps.Cons? ==> Evals(ps) == [Eval(ps.head)] + Evals(ps.tail)
  {
    hide Render, Eval;
  }

  lemma ParsesNothing(tokens: seq<Token>, at: nat)
    requires at < |tokens| && tokens[at] == Close
    ensures ParseList(tokens, at) == Some(Parsed([], at + 1))
  {
  }

  /** An argument and a comma, then the other arguments. */
  lemma ParsesMore(tokens: seq<Token>, at: nat, p: Pred, values: seq<Value>, next: nat)
    requires Reads(tokens, at, Render(p)) && Reads(tokens, at + |Render(p)|, [Comma])
    requires ParseAt(tokens, at) == Some(Parsed(Eval(p), at + |Render(p)|))
    requires ParseList(tokens, at + |Render(p)| + 1) == Some(Parsed(values, next))
    ensures ParseList(tokens, at) == Some(Parsed([Eval(p)] + values, next))
  {
    hide ParseAt, Reads, Render, Eval;
    ReadsFirst(tokens, at, Render(p));
    ReadsFirst(tokens, at + |Render(p)|, [Comma]);
  }

  // ---------------------------------------------------------------- builds

  /** Which options a build sets. */
  type Build = string -> bool

  ghost predicate Production(b: Build) {
    forall x :: x in OFF_IN_PRODUCTION ==> !b(x)
  }

  ghost predicate Compiled(p: Pred, b: Build) {
    match p
    case Atom(name) => b(name)
    case AllOfThem(ps, _) => AllCompiled(ps, b)
    case AnyOfThem(ps, _) => AnyCompiled(ps, b)
    case Negation(q, _) => !Compiled(q, b)
  }

  ghost predicate AllCompiled(ps: Preds, b: Build) {
    match ps
    case Nil => true
    case Cons(p, rest) => Compiled(p, b) && AllCompiled(rest, b)
  }

  ghost predicate AnyCompiled(ps: Preds, b: Build) {
    match ps
    case Nil => false
    case Cons(p, rest) => Compiled(p, b) || AnyCompiled(rest, b)
  }

  /** A definite value is the truth in every production build. */
  lemma {:induction false} EvalSound(p: Pred, b: Build)
    requires Production(b)
    ensures Eval(p) == False ==> !Compiled(p, b)
    ensures Eval(p) == True ==> Compiled(p, b)
    decreases p
  {
    match p
    case Atom(_) =>
    case AllOfThem(ps, _) => EvalsSound(ps, b);
    case AnyOfThem(ps, _) => EvalsSound(ps, b);
    case Negation(q, _) => EvalSound(q, b);
  }

  lemma {:induction false} EvalsSound(ps: Preds, b: Build)
    requires Production(b)
    ensures False in Evals(ps) ==> !AllCompiled(ps, b)
    ensures False !in Evals(ps) && Unknown !in Evals(ps) ==> AllCompiled(ps, b)
    ensures True in Evals(ps) ==> AnyCompiled(ps, b)
    ensures True !in Evals(ps) && Unknown !in Evals(ps) ==> !AnyCompiled(ps, b)
    decreases ps
  {
    hide Compiled, Eval;
    match ps
    case Nil =>
    case Cons(p, rest) =>
      EvalSound(p, b);
      EvalsSound(rest, b);
  }

  /** What the attribute's tokens evaluate to. */
  predicate Gates(tokens: seq<Token>) {
    ValueIn(tokens) == False
  }

  lemma RenderedValue(p: Pred)
    ensures ValueIn(Render(p)) == Eval(p)
  {
    hide ParseAt, Eval, Render;
    assert Render(p)[0..0 + |Render(p)|] == Render(p);
    ParsesPredicate(Render(p), 0, p);
  }

  /** A gated hook is in no production build. */
  lemma GatedNeverCompiled(p: Pred, b: Build)
    requires Gates(Render(p)) && Production(b)
    ensures !Compiled(p, b)
  {
    RenderedValue(p);
    EvalSound(p, b);
  }

  // ---------------------------------------------------------------- when the value is exact

  /** How often an option occurs. */
  function Occurs(p: Pred, x: string): nat {
    match p
    case Atom(name) => if name == x then 1 else 0
    case AllOfThem(ps, _) => OccursIn(ps, x)
    case AnyOfThem(ps, _) => OccursIn(ps, x)
    case Negation(q, _) => Occurs(q, x)
  }

  function OccursIn(ps: Preds, x: string): nat {
    match ps
    case Nil => 0
    case Cons(p, rest) => Occurs(p, x) + OccursIn(rest, x)
  }

  /** No option that production leaves open occurs twice. */
  ghost predicate ReadOnce(p: Pred) {
    forall x :: x !in OFF_IN_PRODUCTION ==> Occurs(p, x) <= 1
  }

  ghost predicate ListReadOnce(ps: Preds) {
    forall x :: x !in OFF_IN_PRODUCTION ==> OccursIn(ps, x) <= 1
  }

  /** Builds that agree on a predicate's options decide it alike. */
  lemma {:induction false} SameOptions(p: Pred, b: Build, d: Build)
    requires forall x :: Occurs(p, x) > 0 ==> b(x) == d(x)
    ensures Compiled(p, b) == Compiled(p, d)
    decreases p
  {
    match p
    case Atom(name) =>
      assert Occurs(p, name) == 1;
    case AllOfThem(ps, _) =>
      assert forall x :: OccursIn(ps, x) == Occurs(p, x);
      SameListOptions(ps, b, d);
    case AnyOfThem(ps, _) =>
      assert forall x :: OccursIn(ps, x) == Occurs(p, x);
      SameListOptions(ps, b, d);
    case Negation(q, _) =>
      assert forall x :: Occurs(q, x) == Occurs(p, x);
      SameOptions(q, b, d);
  }

  lemma {:induction false} SameListOptions(ps: Preds, b: Build, d: Build)
    requires forall x :: OccursIn(ps, x) > 0 ==> b(x) == d(x)
    ensures AllCompiled(ps, b) == AllCompiled(ps, d) && AnyCompiled(ps, b) == AnyCompiled(ps, d)
    decreases ps
  {
    hide Compiled, Occurs;
    match ps
    case Nil =>
    case Cons(p, rest) =>
      assert forall x :: OccursIn(ps, x) == Occurs(p, x) + OccursIn(rest, x);
      SameOptions(p, b, d);
      SameListOptions(rest, b, d);
  }

  /** The first build where the predicate looks, the second elsewhere. */
  function Merge(p: Pred, b: Build, d: Build): Build {
    x => if Occurs(p, x) > 0 then b(x) else d(x)
  }

  function Definite(truth: bool): Value {
    if truth then True else False
  }

  /** Unless the value says otherwise, some production build decides a
      read-once predicate as wanted. */
  lemma {:induction false} SomeBuild(p: Pred, truth: bool) returns (b: Build)
    requires ReadOnce(p) && Eval(p) != Definite(!truth)
    ensures Production(b) && Compiled(p, b) == truth
    decreases p
  {
    match p
    case Atom(name) =>
      b := x => truth && x == name && x !in OFF_IN_PRODUCTION;
    case AllOfThem(ps, _) =>
      assert forall x :: OccursIn(ps, x) == Occurs(p, x);
      if truth {
        b := EveryBuild(ps, true);
      } else {
        b := OneBuild(ps, false);
      }
    case AnyOfThem(ps, _) =>
      assert forall x :: OccursIn(ps, x) == Occurs(p, x);
      if truth {
        b := OneBuild(ps, true);
      } else {
        b := EveryBuild(ps, false);
      }
    case Negation(q, _) =>
      assert forall x :: Occurs(q, x) == Occurs(p, x);
      b := SomeBuild(q, !truth);
  }

  ghost predicate Together(ps: Preds, b: Build, truth: bool) {
    if truth then AllCompiled(ps, b) else !AnyCompiled(ps, b)
  }

  /** One build that decides every argument as wanted. */
  lemma {:induction false} EveryBuild(ps: Preds, truth: bool) returns (b: Build)
    requires ListReadOnce(ps) && Definite(!truth) !in Evals(ps)
    ensures Production(b) && Together(ps, b, truth)
    decreases ps
  {
    hide Compiled, Occurs, Eval;
    match ps
    case Nil =>
      b := x => false;
    case Cons(p, rest) =>
      assert Eval(p) == Evals(ps)[0] && forall v :: v in Evals(rest) ==> v in Evals(ps);
      assert forall x :: OccursIn(ps, x) == Occurs(p, x) + OccursIn(rest, x);
      var first := SomeBuild(p, truth);
      var others := EveryBuild(rest, truth);
      b := Merge(p, first, others);
      SameOptions(p, b, first);
      SameListOptions(rest, b, others);
  }

  /** A build that decides some argument as wanted. */
  lemma {:induction false} OneBuild(ps: Preds, truth: bool) returns (b: Build)
    requires ListReadOnce(ps) && (Definite(truth) in Evals(ps) || Unknown in Evals(ps))
    ensures Production(b) && !Together(ps, b, !truth)
    decreases ps
  {
    hide Compiled, Occurs, Eval;
    match ps
    case Cons(p, rest) =>
      assert forall v :: v in Evals(ps) ==> v == Eval(p) || v in Evals(rest);
      assert forall x :: OccursIn(ps, x) == Occurs(p, x) + OccursIn(rest, x);
      if Eval(p) == Definite(truth) || Eval(p) == Unknown {
        b := SomeBuild(p, truth);
      } else {
        b := OneBuild(rest, truth);
      }
  }

  /** No production build compiles what the predicate guards. */
  ghost predicate NeverInProduction(p: Pred) {
    forall b :: Production(b) ==> !Compiled(p, b)
  }

  /** On read-once predicates the gate is exact: it holds just when no
      production build compiles the hook. */
  lemma GatesExactly(p: Pred)
    requires ReadOnce(p)
    ensures Gates(Render(p)) <==> NeverInProduction(p)
  {
    RenderedValue(p);
    hide Render, Compiled, Eval, ReadOnce;
    if Eval(p) == False {
      forall b | Production(b)
        ensures !Compiled(p, b)
      {
        EvalSound(p, b);
      }
    } else {
      var b := SomeBuild(p, true);
    }
  }

  /** all(x, not(x)) */
  function Contradiction(x: string): Pred {
    AllOfThem(Cons(Atom(x), Cons(Negation(Atom(x), false), Nil)), false)
  }

  /** An open option that occurs twice can hide a contradiction: it is in no
      build, yet it is not recognised as a gate. */
  lemma ContradictionNotRecognised(x: string)
    requires x !in OFF_IN_PRODUCTION
    ensures NeverInProduction(Contradiction(x)) && !Gates(Render(Contradiction(x)))
  {
    RenderedValue(Contradiction(x));
    hide Render, ValueIn;
    var negation := Negation(Atom(x), false);
    assert Eval(Atom(x)) == Unknown && Eval(negation) == Unknown;
    assert Evals(Cons(negation, Nil)) == [Unknown];
    assert Evals(Cons(Atom(x), Cons(negation, Nil))) == [Unknown, Unknown];
    forall b | Production(b)
      ensures !Compiled(Contradiction(x), b)
    {
      assert AllCompiled(Cons(negation, Nil), b) ==> Compiled(negation, b);
      assert Compiled(negation, b) <==> !Compiled(Atom(x), b);
      assert !AllCompiled(Cons(Atom(x), Cons(negation, Nil)), b);
    }
  }
}
