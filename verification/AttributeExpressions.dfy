/**
 Attribute-based conditions: a configuration tree is compiled to an expression
 tree, which is then evaluated; and the dotted-path order behind hierarchical
 matching.

 A single attribute condition is judged by a given predicate; the context it
 reads is part of that predicate.
 */
module AttributeExpressions {
  import opened Options
  import opened Strings

  datatype LogicalOperator = And | Or | Not

  datatype AttributeOperator =
    | Equals | NotEquals | Contains | NotContains | ContainsAny | In | NotIn | GreaterThan | LessThan | GreaterOrEqual
    | LessOrEqual | Matches | HierarchicalMatches | SecurityLevelMeets | SecurityLevelBelow | MatchesDataRegion
    | Between

  datatype Condition = Condition(path: string, operator: AttributeOperator, value: string, caseSensitive: bool)

  datatype Expression = Single(condition: Condition) | Logical(op: LogicalOperator, conditions: seq<Expression>)

  /** The dictionary form; an absent key is None, an absent `conditions` is []. */
  datatype Config = Config(
    operator: Option<string>, conditions: seq<Config>, path: Option<string>, value: string, caseSensitive: Option<bool>)

  datatype BuildError = EmptyPath | UnknownOperator | EmptyConditions | NotTakesOne

  /** The values of the attribute operators. */
  function OperatorText(op: AttributeOperator): string {
    match op
    case Equals => "equals"
    case NotEquals => "not_equals"
    case Contains => "contains"
    case NotContains => "not_contains"
    case ContainsAny => "contains_any"
    case In => "in"
    case NotIn => "not_in"
    case GreaterThan => "greater_than"
    case LessThan => "less_than"
    case GreaterOrEqual => "greater_or_equal"
    case LessOrEqual => "less_or_equal"
    case Matches => "matches"
    case HierarchicalMatches => "hierarchical_match"
    case SecurityLevelMeets => "security_level_meets"
    case SecurityLevelBelow => "security_level_below"
    case MatchesDataRegion => "matches_data_region"
    case Between => "between"
  }

  /** The attribute operator with a given value, if there is one. */
  function OperatorNamed(text: string): Option<AttributeOperator> {
    match text
    case "equals" => Some(Equals)
    case "not_equals" => Some(NotEquals)
    case "contains" => Some(Contains)
    case "not_contains" => Some(NotContains)
    case "contains_any" => Some(ContainsAny)
    case "in" => Some(In)
    case "not_in" => Some(NotIn)
    case "greater_than" => Some(GreaterThan)
    case "less_than" => Some(LessThan)
    case "greater_or_equal" => Some(GreaterOrEqual)
    case "less_or_equal" => Some(LessOrEqual)
    case "matches" => Some(Matches)
    case "hierarchical_match" => Some(HierarchicalMatches)
    case "security_level_meets" => Some(SecurityLevelMeets)
    case "security_level_below" => Some(SecurityLevelBelow)
    case "matches_data_region" => Some(MatchesDataRegion)
    case "between" => Some(Between)
    case _ => None
  }

  /** A text names an operator exactly when it is that operator's value. */
  lemma OperatorNamedIff(text: string, op: AttributeOperator)
    ensures OperatorNamed(text) == Some(op) <==> text == OperatorText(op)
  {
  }

  function GetOr<T>(o: Option<T>, default: T): T {
    if o.Some? then o.value else default
  }

  // ---- Building ----

  function ParseLogical(c: Config): Option<LogicalOperator> {
    if c.operator == Some("and") then Some(And)
    else if c.operator == Some("or") then Some(Or)
    else if c.operator == Some("not") then Some(Not)
    else None
  }

  /** `AttributeExpression` with its check on construction. */
  function MakeLogical(op: LogicalOperator, conditions: seq<Expression>): Result<Expression, BuildError> {
    if conditions == [] then Err(EmptyConditions)
    else if op == Not && |conditions| != 1 then Err(NotTakesOne)
    else Ok(Logical(op, conditions))
  }

  /** `AttributeCondition` with its check on construction; the operator name is looked up first. */
  function MakeSingle(c: Config): Result<Expression, BuildError> {
    var operator := OperatorNamed(GetOr(c.operator, "equals"));
    var path := GetOr(c.path, "");
    if operator.None? then Err(UnknownOperator)
    else if path == "" then Err(EmptyPath)
    else Ok(Single(Condition(path, operator.value, c.value, GetOr(c.caseSensitive, true))))
  }

  function Build(c: Config): Result<Expression, BuildError>
    decreases c, 1
  {
    var op := ParseLogical(c);
    if op.None? then MakeSingle(c)
    else
      match BuildAll(c.conditions)
      case Err(e) => Err(e)
      case Ok(conditions) => MakeLogical(op.value, conditions)
  }

  /** Builds in order, stopping at the first error. */
  function BuildAll(cs: seq<Config>): (r: Result<seq<Expression>, BuildError>)
    ensures r.Ok? ==> |r.value| == |cs|
    decreases cs, 0
  {
    if cs == [] then Ok([])
    else
      match Build(cs[0])
      case Err(e) => Err(e)
      case Ok(first) =>
        match BuildAll(cs[1..])
        case Err(e) => Err(e)
        case Ok(rest) => Ok([first] + rest)
  }

  lemma {:induction false} BuildAllConcat(a: seq<Config>, b: seq<Config>)
    ensures
      BuildAll(a + b) ==
      match BuildAll(a)
      case Err(e) => Err(e)
      case Ok(front) =>
        match BuildAll(b)
        case Err(e) => Err(e)
        case Ok(rest) => Ok(front + rest)
  {
    if a == [] {
      assert a + b == b;
      assert BuildAll(b).Ok? ==> [] + BuildAll(b).value == BuildAll(b).value;
    } else {
      assert (a + b)[1..] == a[1..] + b;
      BuildAllConcat(a[1..], b);
      if BuildAll(a).Ok? && BuildAll(b).Ok? {
        assert [Build(a[0]).value] + (BuildAll(a[1..]).value + BuildAll(b).value)
            == [Build(a[0]).value] + BuildAll(a[1..]).value + BuildAll(b).value;
      }
    }
  }

  lemma BuildOne(c: Config)
    ensures BuildAll([c]) == match Build(c) case Err(e) => Err(e) case Ok(v) => Ok([v])
  {
    assert [c][1..] == [] && BuildAll([]) == Ok([]);
    if Build(c).Ok? {
      assert [Build(c).value] + [] == [Build(c).value];
    }
  }

  /** `_build_expression`, appending to a local list. */
  method BuildExpression(c: Config) returns (r: Result<Expression, BuildError>)
    ensures r == Build(c)
    ensures r.Ok? <==> Acceptable(c)
    ensures r.Ok? ==> forall judge :: Evaluate(r.value, judge) == Meaning(c, judge)
    decreases c
  {
    BuildMeans(c);
    var op := ParseLogical(c);
    if op.None? {
      return MakeSingle(c);
    }
    var conditions := [];
    for i := 0 to |c.conditions|
      invariant BuildAll(c.conditions[..i]) == Ok(conditions)
    {
      var built := BuildExpression(c.conditions[i]);
      assert c.conditions[..i + 1] == c.conditions[..i] + [c.conditions[i]];
      BuildAllConcat(c.conditions[..i], [c.conditions[i]]);
      BuildOne(c.conditions[i]);
      if built.Err? {
        assert c.conditions == c.conditions[..i + 1] + c.conditions[i + 1..];
        BuildAllConcat(c.conditions[..i + 1], c.conditions[i + 1..]);
        return built;
      }
      conditions := conditions + [built.value];
    }
    assert c.conditions[..|c.conditions|] == c.conditions;
    return MakeLogical(op.value, conditions);
  }

  // ---- Evaluating ----

  function Evaluate(e: Expression, judge: Condition -> bool): bool
    decreases e, 1
  {
    match e
    case Single(c) => judge(c)
    case Logical(And, es) => EvaluateAll(es, judge)
    case Logical(Or, es) => EvaluateAny(es, judge)
    case Logical(Not, es) => es != [] && !Evaluate(es[0], judge)
  }

  function EvaluateAll(es: seq<Expression>, judge: Condition -> bool): bool
    decreases es, 0
  {
    es == [] || (Evaluate(es[0], judge) && EvaluateAll(es[1..], judge))
  }

  function EvaluateAny(es: seq<Expression>, judge: Condition -> bool): bool
    decreases es, 0
  {
    es != [] && (Evaluate(es[0], judge) || EvaluateAny(es[1..], judge))
  }

  lemma {:induction false} AllAndAny(es: seq<Expression>, judge: Condition -> bool)
    ensures EvaluateAll(es, judge) <==> forall i | 0 <= i < |es| :: Evaluate(es[i], judge)
    ensures EvaluateAny(es, judge) <==> exists i :: 0 <= i < |es| && Evaluate(es[i], judge)
  {
    if es != [] {
      AllAndAny(es[1..], judge);
      assert forall i | 0 < i < |es| :: es[i] == es[1..][i - 1];
      if i :| 0 <= i < |es[1..]| && Evaluate(es[1..][i], judge) {
        assert Evaluate(es[i + 1], judge);
      }
    }
  }

  /** What the three logical operators do, on any list. */
  lemma LogicalMeans(es: seq<Expression>, judge: Condition -> bool)
    ensures Evaluate(Logical(And, es), judge) <==> forall i | 0 <= i < |es| :: Evaluate(es[i], judge)
    ensures Evaluate(Logical(Or, es), judge) <==> exists i :: 0 <= i < |es| && Evaluate(es[i], judge)
    ensures |es| == 1 ==> (Evaluate(Logical(Not, es), judge) <==> !Evaluate(es[0], judge))
  {
    AllAndAny(es, judge);
  }

  // ---- What a configuration means, and when it is acceptable, by its text ----

  ghost predicate IsLogicalText(operator: Option<string>) {
    operator.Some? && (operator.value == "and" || operator.value == "or" || operator.value == "not")
  }

  /** A logical operator has conditions, `not` exactly one; anything else is a single
      condition, with a path and the value of some attribute operator, `equals` if none is given. */
  ghost predicate Acceptable(c: Config) {
    if IsLogicalText(c.operator) then
      && c.conditions != [] && (c.operator.value == "not" ==> |c.conditions| == 1)
      && forall i | 0 <= i < |c.conditions| :: Acceptable(c.conditions[i])
    else
      && c.path.Some? && c.path.value != ""
      && (c.operator.Some? ==> exists op :: OperatorText(op) == c.operator.value)
  }

  /** The single condition that a configuration without a logical operator states. */
  ghost predicate States(c: Config, condition: Condition) {
    && c.path == Some(condition.path) && condition.value == c.value
    && OperatorText(condition.operator) == (if c.operator.Some? then c.operator.value else "equals")
    && condition.caseSensitive == (c.caseSensitive.Some? ==> c.caseSensitive.value)
  }

  /** "and": all hold; "or": some holds; "not": the one does not; otherwise the single condition holds. */
  ghost predicate Meaning(c: Config, judge: Condition -> bool) {
    if c.operator == Some("and") then forall i | 0 <= i < |c.conditions| :: Meaning(c.conditions[i], judge)
    else if c.operator == Some("or") then exists i :: 0 <= i < |c.conditions| && Meaning(c.conditions[i], judge)
    else if c.operator == Some("not") then |c.conditions| == 1 && !Meaning(c.conditions[0], judge)
    else exists condition :: States(c, condition) && judge(condition)
  }

  /** Non-empty, and unary for `not`, at every depth. */
  ghost predicate WellFormed(e: Expression) {
    match e
    case Single(c) => c.path != ""
    case Logical(op, es) =>
      es != [] && (op == Not ==> |es| == 1) && forall i | 0 <= i < |es| :: WellFormed(es[i])
  }

  ghost predicate Agrees(c: Config, e: Expression, judge: Condition -> bool) {
    WellFormed(e) && Evaluate(e, judge) == Meaning(c, judge)
  }

  lemma {:induction false} BuildAllIsCorrect(cs: seq<Config>, judge: Condition -> bool)
    ensures BuildAll(cs).Ok? <==> forall i | 0 <= i < |cs| :: Acceptable(cs[i])
    ensures BuildAll(cs).Ok? ==> forall i | 0 <= i < |cs| :: Agrees(cs[i], BuildAll(cs).value[i], judge)
    decreases cs, 0
  {
    if cs != [] {
      BuildIsCorrect(cs[0], judge);
      BuildAllIsCorrect(cs[1..], judge);
      assert forall i | 0 < i < |cs| :: cs[i] == cs[1..][i - 1];
      if BuildAll(cs).Ok? {
        forall i | 0 <= i < |cs|
          ensures Agrees(cs[i], BuildAll(cs).value[i], judge)
        {
          assert i > 0 ==> Agrees(cs[1..][i - 1], BuildAll(cs[1..]).value[i - 1], judge);
        }
      }
    }
  }

  lemma SingleIsCorrect(c: Config, judge: Condition -> bool)
    requires !IsLogicalText(c.operator)
    ensures MakeSingle(c).Ok? <==> Acceptable(c)
    ensures MakeSingle(c).Ok? ==> Agrees(c, MakeSingle(c).value, judge)
  {
    var text := GetOr(c.operator, "equals");
    forall op
      ensures OperatorNamed(text) == Some(op) <==> text == OperatorText(op)
    {
      OperatorNamedIff(text, op);
    }
    OperatorNamedIff("equals", Equals);
    if MakeSingle(c).Ok? {
      var made := MakeSingle(c).value.condition;
      assert States(c, made);
      forall other | States(c, other)
        ensures other == made
      {
        assert OperatorNamed(text) == Some(other.operator);
      }
    }
  }

  /** Building succeeds exactly on acceptable configurations, and then gives a
      well-formed expression that evaluates to what the configuration means. */
  lemma {:induction false} BuildIsCorrect(c: Config, judge: Condition -> bool)
    ensures Build(c).Ok? <==> Acceptable(c)
    ensures Build(c).Ok? ==> Agrees(c, Build(c).value, judge)
    decreases c, 1
  {
    if IsLogicalText(c.operator) {
      BuildAllIsCorrect(c.conditions, judge);
      if Build(c).Ok? {
        var es := BuildAll(c.conditions).value;
        LogicalMeans(es, judge);
        forall i | 0 <= i < |es|
          ensures WellFormed(es[i]) && Evaluate(es[i], judge) == Meaning(c.conditions[i], judge)
        {
          assert Agrees(c.conditions[i], es[i], judge);
        }
      }
    } else {
      SingleIsCorrect(c, judge);
    }
  }

  lemma BuildMeans(c: Config)
    ensures Build(c).Ok? <==> Acceptable(c)
    ensures Build(c).Ok? ==> forall judge :: Evaluate(Build(c).value, judge) == Meaning(c, judge)
  {
    BuildIsCorrect(c, _ => true);
    if Build(c).Ok? {
      forall judge
        ensures Evaluate(Build(c).value, judge) == Meaning(c, judge)
      {
        BuildIsCorrect(c, judge);
        assert Agrees(c, Build(c).value, judge);
      }
    }
  }

  // ---- Which error ----

  /** A list fails with its first failing member's error. */
  lemma {:induction false} FirstErrorWins(cs: seq<Config>, e: BuildError)
    ensures
      BuildAll(cs) == Err(e) <==>
      exists i :: 0 <= i < |cs| && Build(cs[i]) == Err(e) && forall k | 0 <= k < i :: Build(cs[k]).Ok?
  {
    if cs != [] {
      FirstErrorWins(cs[1..], e);
      if Build(cs[0]).Ok? {
        if i :| 0 <= i < |cs[1..]| && Build(cs[1..][i]) == Err(e) && forall k | 0 <= k < i :: Build(cs[1..][k]).Ok? {
          assert Build(cs[i + 1]) == Err(e);
          assert forall k | 0 < k < i + 1 :: cs[k] == cs[1..][k - 1];
        }
        if i :| 0 <= i < |cs| && Build(cs[i]) == Err(e) && forall k | 0 <= k < i :: Build(cs[k]).Ok? {
          assert Build(cs[1..][i - 1]) == Err(e);
        }
      }
    }
  }

  /** A logical configuration passes on its conditions' first error before its own checks;
      a single one reports its operator before its path. */
  lemma ErrorsByText(c: Config)
    ensures
      IsLogicalText(c.operator) ==>
        (match BuildAll(c.conditions)
         case Err(e) => Build(c) == Err(e)
         case Ok(_) =>
           && (Build(c) == Err(EmptyConditions) <==> c.conditions == [])
           && (Build(c) == Err(NotTakesOne) <==> c.operator.value == "not" && |c.conditions| > 1)
           && Build(c) != Err(UnknownOperator) && Build(c) != Err(EmptyPath))
    ensures
      !IsLogicalText(c.operator) ==>
        && (Build(c) == Err(UnknownOperator) <==>
            c.operator.Some? && forall op :: OperatorText(op) != c.operator.value)
        && (Build(c) == Err(EmptyPath) <==>
            Build(c) != Err(UnknownOperator) && (c.path.None? || c.path.value == ""))
  {
    if !IsLogicalText(c.operator) {
      forall op
        ensures OperatorNamed(GetOr(c.operator, "equals")) == Some(op) <==>
                GetOr(c.operator, "equals") == OperatorText(op)
      {
        OperatorNamedIff(GetOr(c.operator, "equals"), op);
      }
      OperatorNamedIff("equals", Equals);
    }
  }

  // ---- Laws of the evaluator ----

  function Negated(es: seq<Expression>): seq<Expression> {
    seq(|es|, i requires 0 <= i < |es| => Logical(Not, [es[i]]))
  }

  lemma DeMorgan(es: seq<Expression>, judge: Condition -> bool)
    ensures Evaluate(Logical(Not, [Logical(And, es)]), judge) == Evaluate(Logical(Or, Negated(es)), judge)
    ensures Evaluate(Logical(Not, [Logical(Or, es)]), judge) == Evaluate(Logical(And, Negated(es)), judge)
  {
    AllAndAny(es, judge);
    AllAndAny(Negated(es), judge);
    forall i | 0 <= i < |es|
      ensures Evaluate(Negated(es)[i], judge) == !Evaluate(es[i], judge)
    {
    }
    if i :| 0 <= i < |es| && !Evaluate(es[i], judge) {
      assert Evaluate(Negated(es)[i], judge);
    }
  }

  lemma DoubleNegation(e: Expression, judge: Condition -> bool)
    ensures Evaluate(Logical(Not, [Logical(Not, [e])]), judge) == Evaluate(e, judge)
  {
    assert [Logical(Not, [e])][0] == Logical(Not, [e]);
  }

  // ---- Hierarchical matching ----

  /** `_eval_hierarchical_match` on strings, case-sensitively. */
  predicate HierarchicalMatch(value: string, expected: string) {
    value == expected || expected + "." <= value
  }

  function Segments(path: string): seq<string> {
    Split(path, {'.'})
  }

  lemma SegmentsIdentify(a: string, b: string)
    requires Segments(a) == Segments(b)
    ensures a == b
  {
    JoinSplit(a, '.');
    JoinSplit(b, '.');
  }

  /** A value matches exactly when the expected path's dotted segments are a prefix of its own. */
  lemma MatchIsSegmentPrefix(value: string, expected: string)
    ensures HierarchicalMatch(value, expected) <==> Segments(expected) <= Segments(value)
  {
    if expected + "." <= value {
      var rest := value[|expected| + 1..];
      assert value == expected + ['.'] + rest;
      SplitAtSeparator(expected, '.', rest, {'.'});
    }
    if Segments(expected) <= Segments(value) {
      var more := Segments(value)[|Segments(expected)|..];
      assert Segments(value) == Segments(expected) + more;
      if more == [] {
        SegmentsIdentify(value, expected);
      } else {
        JoinSplit(value, '.');
        JoinSplit(expected, '.');
        JoinConcat(Segments(expected), more, '.');
        assert value == expected + ['.'] + Join(more, '.');
      }
    }
  }

  lemma MatchIsPartialOrder(a: string, b: string, c: string)
    ensures HierarchicalMatch(a, a)
    ensures HierarchicalMatch(a, b) && HierarchicalMatch(b, a) ==> a == b
    ensures HierarchicalMatch(a, b) && HierarchicalMatch(b, c) ==> HierarchicalMatch(a, c)
  {
    MatchIsSegmentPrefix(a, b);
    MatchIsSegmentPrefix(b, c);
    MatchIsSegmentPrefix(a, c);
  }
}
