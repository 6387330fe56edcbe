/**
  The canonical document of a policy: what the normalised form says, that it
  is always accepted again, and that it decides every request alike.
  */
module PolicyNormalize {
  import opened Common
  import opened Sequences
  import opened BucketPolicy

  // ---------------------------------------------------------------- printing

  function AsStr(s: string): Json {
    Str(s)
  }

  /** A single value is written bare, anything else as an array. */
  function StringsJson(values: seq<string>): Json {
    if |values| == 1 then Str(values[0]) else Arr(Map(AsStr, values))
  }

  function WithKind(fields: map<string, Json>, kind: string, values: seq<string>): map<string, Json> {
    if values == [] then fields else fields[kind := StringsJson(values)]
  }

  function PrincipalJson(p: Principal): Json {
    if p.wildcard then Str("*")
    else Obj(WithKind(WithKind(WithKind(map[], "AWS", p.aws), "CanonicalUser", p.canonicalUser), "Service", p.service))
  }

  function Operators(conditions: Conditions): set<string> {
    set k | k in conditions.Keys :: k.0
  }

  function OperandKeys(conditions: Conditions, operator: string): set<string> {
    set k | k in conditions.Keys && k.0 == operator :: k.1
  }

  function OperandsJson(conditions: Conditions, operator: string): map<string, Json> {
    map key | key in OperandKeys(conditions, operator) :: StringsJson(conditions[(operator, key)])
  }

  /** Clauses grouped by operator. */
  function ConditionsJson(conditions: Conditions): map<string, Json> {
    map operator | operator in Operators(conditions) :: Obj(OperandsJson(conditions, operator))
  }

  function EffectJson(effect: Effect): Json {
    if effect == Allow then Str("Allow") else Str("Deny")
  }

  function StatementJson(s: Statement): map<string, Json> {
    var core := map["Effect" := EffectJson(s.effect), "Principal" := PrincipalJson(s.principal),
                    "Action" := StringsJson(s.actions), "Resource" := StringsJson(s.resources)];
    var labelled := if s.sid.None? then core else core["Sid" := Str(s.sid.value)];
    if s.conditions == map[] then labelled else labelled["Condition" := Obj(ConditionsJson(s.conditions))]
  }

  function StatementObject(s: Statement): Json {
    Obj(StatementJson(s))
  }

  function PolicyJson(p: Policy): Json {
    var statements := map["Statement" := Arr(Map(StatementObject, p.statements))];
    Obj(if p.version.None? then statements else statements["Version" := Str(p.version.value)])
  }

  // ------------------------------------------------------- parsed statements

  /** What parsing guarantees of a principal. */
  ghost predicate ParsedPrincipal(syntax: Syntax, p: Principal) {
    && (p.wildcard || p.aws != [] || p.service != [] || p.canonicalUser != [])
    && (forall x :: x in p.aws ==> x != "*" && syntax.awsPrincipalOk(x))
  }

  ghost predicate ParsedConditions(syntax: Syntax, conditions: Conditions) {
    forall k :: k in conditions ==>
      conditions[k] != [] && syntax.clauseOk(Clause(k.0, k.1, conditions[k]))
  }

  ghost predicate ParsedStatement(syntax: Syntax, s: Statement) {
    && ParsedPrincipal(syntax, s.principal)
    && s.actions != [] && s.resources != []
    && CheckApplicability(syntax, s.actions, s.resources).Ok?
    && ParsedConditions(syntax, s.conditions)
  }

  lemma PrincipalIsParsed(syntax: Syntax, j: Json)
    requires ParsePrincipal(syntax, j).Some?
    ensures ParsedPrincipal(syntax, ParsePrincipal(syntax, j).value)
  {
    if j.Obj? {
      var fields := j.fields;
      var aws := PrincipalValues(fields, "AWS").value;
      assert fields.Keys != {};
      var kind :| kind in fields;
      if kind == "AWS" && "*" !in aws {
        assert aws[0] in NotWildcard(aws);
      }
    }
  }

  lemma ConditionsAreParsed(syntax: Syntax, j: Option<Json>)
    requires ParseConditions(syntax, j).Some?
    ensures ParsedConditions(syntax, ParseConditions(syntax, j).value)
  {
    if j.Some? {
      var operators := j.value.fields;
      forall k | k in ConditionMap(operators)
        ensures ConditionMap(operators)[k] != [] && syntax.clauseOk(Clause(k.0, k.1, ConditionMap(operators)[k]))
      {
        assert OperatorOk(syntax, k.0, operators[k.0]);
        assert OperandOk(syntax, k.0, k.1, operators[k.0].fields[k.1]);
      }
    }
  }

  lemma StatementIsParsed(syntax: Syntax, fields: map<string, Json>)
    requires ParseFields(syntax, fields).Ok?
    ensures ParsedStatement(syntax, ParseFields(syntax, fields).value)
  {
    PrincipalIsParsed(syntax, fields["Principal"]);
    ConditionsAreParsed(syntax, Field(fields, "Condition"));
  }

  // --------------------------------------------------------------- re-parsing

  lemma StringsRoundTrip(values: seq<string>)
    requires values != []
    ensures StringOrArray(StringsJson(values)) == Some(values)
    ensures OperandValues(StringsJson(values)) == Some(values)
  {
    if |values| == 1 {
      assert values == [values[0]];
    } else {
      var items := Map(AsStr, values);
      assert Map(TextOf, items) == values;
      assert Map(OperandText, items) == values;
    }
  }

  lemma WithKindReads(fields: map<string, Json>, kind: string, values: seq<string>, other: string)
    requires kind !in fields
    ensures PrincipalValues(WithKind(fields, kind, values), other) ==
            if other == kind then Some(values) else PrincipalValues(fields, other)
    ensures WithKind(fields, kind, values).Keys == fields.Keys + (if values == [] then {} else {kind})
  {
    if values != [] {
      StringsRoundTrip(values);
    }
  }

  lemma NoWildcards(values: seq<string>)
    requires "*" !in values
    ensures NotWildcard(values) == values
  {
    if values != [] {
      NoWildcards(values[1..]);
      assert values == [values[0]] + values[1..];
    }
  }

  /** The principal as the canonical document keeps it: a wildcard absorbs the rest. */
  function CanonicalPrincipal(p: Principal): Principal {
    if p.wildcard then Principal(true, [], [], []) else p
  }

  lemma PrincipalKinds(p: Principal)
    requires !p.wildcard
    ensures var fields := PrincipalJson(p).fields;
            && PrincipalValues(fields, "AWS") == Some(p.aws)
            && PrincipalValues(fields, "Service") == Some(p.service)
            && PrincipalValues(fields, "CanonicalUser") == Some(p.canonicalUser)
            && fields.Keys == (if p.aws == [] then {} else {"AWS"})
                              + (if p.canonicalUser == [] then {} else {"CanonicalUser"})
                              + (if p.service == [] then {} else {"Service"})
  {
    var none: map<string, Json> := map[];
    var one := WithKind(none, "AWS", p.aws);
    var two := WithKind(one, "CanonicalUser", p.canonicalUser);
    forall kind
      ensures PrincipalValues(one, kind) == if kind == "AWS" then Some(p.aws) else Some([])
    {
      WithKindReads(none, "AWS", p.aws, kind);
    }
    WithKindReads(none, "AWS", p.aws, "AWS");
    forall kind
      ensures PrincipalValues(two, kind) ==
              if kind == "CanonicalUser" then Some(p.canonicalUser) else PrincipalValues(one, kind)
    {
      WithKindReads(one, "CanonicalUser", p.canonicalUser, kind);
    }
    WithKindReads(one, "CanonicalUser", p.canonicalUser, "AWS");
    WithKindReads(two, "Service", p.service, "AWS");
    WithKindReads(two, "Service", p.service, "Service");
    WithKindReads(two, "Service", p.service, "CanonicalUser");
  }

  lemma PrincipalRoundTrip(syntax: Syntax, p: Principal)
    requires ParsedPrincipal(syntax, p)
    ensures ParsePrincipal(syntax, PrincipalJson(p)) == Some(CanonicalPrincipal(p))
  {
    if !p.wildcard {
      PrincipalKinds(p);
      assert "*" !in p.aws;
      NoWildcards(p.aws);
      NamedPrincipalParses(syntax, PrincipalJson(p).fields, p);
    }
  }

  lemma NamedPrincipalParses(syntax: Syntax, fields: map<string, Json>, p: Principal)
    requires ParsedPrincipal(syntax, p) && !p.wildcard && "*" !in p.aws && NotWildcard(p.aws) == p.aws
    requires PrincipalValues(fields, "AWS") == Some(p.aws)
    requires PrincipalValues(fields, "Service") == Some(p.service)
    requires PrincipalValues(fields, "CanonicalUser") == Some(p.canonicalUser)
    requires fields.Keys == (if p.aws == [] then {} else {"AWS"})
                            + (if p.canonicalUser == [] then {} else {"CanonicalUser"})
                            + (if p.service == [] then {} else {"Service"})
    ensures ParsePrincipal(syntax, Obj(fields)) == Some(p)
  {
    assert fields.Keys != {};
    assert forall i :: 0 <= i < |p.aws| ==> p.aws[i] in p.aws;
    assert forall kind :: kind in fields ==> kind in fields.Keys;
  }

  lemma OperandsRoundTrip(syntax: Syntax, conditions: Conditions, operator: string)
    requires ParsedConditions(syntax, conditions)
    ensures OperatorOk(syntax, operator, Obj(OperandsJson(conditions, operator)))
  {
    forall key | key in OperandsJson(conditions, operator)
      ensures OperandOk(syntax, operator, key, OperandsJson(conditions, operator)[key])
    {
      assert (operator, key) in conditions;
      StringsRoundTrip(conditions[(operator, key)]);
    }
  }

  lemma ConditionMapReads(operators: map<string, Json>, operator: string, key: string)
    ensures (operator, key) in ConditionMap(operators) <==>
            operator in operators && key in OperandsOf(operators[operator])
    ensures operator in operators && key in OperandsOf(operators[operator]) ==>
              ConditionMap(operators)[(operator, key)] == ValuesOf(OperandsOf(operators[operator])[key])
  {
  }

  lemma ConditionsJsonReads(conditions: Conditions, operator: string, key: string)
    ensures operator in ConditionsJson(conditions) && key in OperandsOf(ConditionsJson(conditions)[operator]) <==>
            (operator, key) in conditions
    ensures (operator, key) in conditions ==>
              OperandsOf(ConditionsJson(conditions)[operator])[key] == StringsJson(conditions[(operator, key)])
  {
    if (operator, key) in conditions {
      assert (operator, key) in conditions.Keys && (operator, key).0 == operator;
      assert operator in Operators(conditions) && key in OperandKeys(conditions, operator);
    }
  }

  lemma ConditionMapRoundTrip(syntax: Syntax, conditions: Conditions)
    requires ParsedConditions(syntax, conditions)
    ensures ConditionMap(ConditionsJson(conditions)) == conditions
  {
    var operators := ConditionsJson(conditions);
    forall operator, key
      ensures (operator, key) in ConditionMap(operators) <==> (operator, key) in conditions
      ensures (operator, key) in conditions ==>
                ConditionMap(operators)[(operator, key)] == conditions[(operator, key)]
    {
      ConditionMapReads(operators, operator, key);
      ConditionsJsonReads(conditions, operator, key);
      if (operator, key) in conditions {
        StringsRoundTrip(conditions[(operator, key)]);
      }
    }
    SameByPairs(ConditionMap(operators), conditions);
  }

  lemma SameByPairs(m: Conditions, m': Conditions)
    requires forall operator, key :: (operator, key) in m <==> (operator, key) in m'
    requires forall operator, key :: (operator, key) in m' ==> m[(operator, key)] == m'[(operator, key)]
    ensures m == m'
  {
    forall k: (string, string)
      ensures k in m <==> k in m'
      ensures k in m' ==> m[k] == m'[k]
    {
      assert k == (k.0, k.1);
    }
  }

  lemma ConditionsRoundTrip(syntax: Syntax, conditions: Conditions)
    requires ParsedConditions(syntax, conditions)
    ensures ParseConditions(syntax, Some(Obj(ConditionsJson(conditions)))) == Some(conditions)
  {
    ConditionMapRoundTrip(syntax, conditions);
    forall operator | operator in ConditionsJson(conditions)
      ensures OperatorOk(syntax, operator, ConditionsJson(conditions)[operator])
    {
      OperandsRoundTrip(syntax, conditions, operator);
    }
  }

  ghost predicate ReadsAs(fields: map<string, Json>, s: Statement) {
    && !Negated(fields)
    && Field(fields, "Sid") == (if s.sid.None? then None else Some(Str(s.sid.value)))
    && Field(fields, "Effect") == Some(EffectJson(s.effect))
    && Field(fields, "Principal") == Some(PrincipalJson(s.principal))
    && Field(fields, "Action") == Some(StringsJson(s.actions))
    && Field(fields, "Resource") == Some(StringsJson(s.resources))
    && Field(fields, "Condition") == (if s.conditions == map[] then None else Some(Obj(ConditionsJson(s.conditions))))
  }

  lemma StatementReads(s: Statement)
    ensures ReadsAs(StatementJson(s), s)
  {
  }

  function CanonicalStatement(s: Statement): Statement {
    s.(principal := CanonicalPrincipal(s.principal))
  }

  lemma HeaderFields(fields: map<string, Json>, s: Statement)
    requires ReadsAs(fields, s) && s.actions != [] && s.resources != []
    ensures ParseSid(Field(fields, "Sid")) == Some(s.sid) && ParseEffect(Field(fields, "Effect")) == Some(s.effect)
    ensures Required(Field(fields, "Action")) == Some(s.actions)
    ensures Required(Field(fields, "Resource")) == Some(s.resources)
  {
    StringsRoundTrip(s.actions);
    StringsRoundTrip(s.resources);
  }

  lemma PrincipalField(syntax: Syntax, fields: map<string, Json>, s: Statement)
    requires ReadsAs(fields, s) && ParsedPrincipal(syntax, s.principal)
    ensures RequiredPrincipal(syntax, Field(fields, "Principal")) == Some(CanonicalPrincipal(s.principal))
  {
    PrincipalRoundTrip(syntax, s.principal);
  }

  lemma ConditionField(syntax: Syntax, fields: map<string, Json>, s: Statement)
    requires ReadsAs(fields, s) && ParsedConditions(syntax, s.conditions)
    ensures ParseConditions(syntax, Field(fields, "Condition")) == Some(s.conditions)
  {
    ConditionsRoundTrip(syntax, s.conditions);
  }

  lemma FieldsRoundTrip(syntax: Syntax, fields: map<string, Json>, s: Statement)
    requires ParsedStatement(syntax, s) && ReadsAs(fields, s)
    ensures ParseFields(syntax, fields) == Ok(CanonicalStatement(s))
  {
    HeaderFields(fields, s);
    PrincipalField(syntax, fields, s);
    ConditionField(syntax, fields, s);
    ParseFieldsFrom(syntax, fields, CanonicalStatement(s));
  }

  /** A parsed statement is read back from its canonical form. */
  lemma StatementRoundTrip(syntax: Syntax, s: Statement)
    requires ParsedStatement(syntax, s)
    ensures ParseStatement(syntax, StatementObject(s)) == Ok(CanonicalStatement(s))
  {
    StatementReads(s);
    FieldsRoundTrip(syntax, StatementJson(s), s);
  }

  lemma {:induction false} StatementsRoundTrip(syntax: Syntax, statements: seq<Statement>)
    requires forall i :: 0 <= i < |statements| ==> ParsedStatement(syntax, statements[i])
    ensures ParseEach(syntax, Map(StatementObject, statements)) == Ok(Map(CanonicalStatement, statements))
  {
    if statements != [] {
      StatementRoundTrip(syntax, statements[0]);
      StatementsRoundTrip(syntax, statements[1..]);
      assert Map(StatementObject, statements)[1..] == Map(StatementObject, statements[1..]);
    }
  }

  function CanonicalPolicy(p: Policy): Policy {
    p.(statements := Map(CanonicalStatement, p.statements))
  }

  lemma PolicyIsParsed(syntax: Syntax, j: Json)
    requires ParsePolicy(syntax, j).Ok?
    ensures var p := ParsePolicy(syntax, j).value;
            && p.statements != [] && (p.version.Some? ==> ParseVersion(Some(Str(p.version.value))) == Some(p.version))
            && forall i :: 0 <= i < |p.statements| ==> ParsedStatement(syntax, p.statements[i])
  {
    var p := ParsePolicy(syntax, j).value;
    var source := j.fields["Statement"];
    var items := if source.Arr? then source.items else [source];
    assert ParseEach(syntax, items) == Ok(p.statements);
    forall i | 0 <= i < |items|
      ensures ParsedStatement(syntax, p.statements[i])
    {
      assert ParseStatement(syntax, items[i]) == Ok(p.statements[i]);
      StatementIsParsed(syntax, items[i].fields);
    }
  }

  /** The canonical document of an accepted policy is always accepted. */
  lemma NormalizedParses(syntax: Syntax, j: Json)
    requires ParsePolicy(syntax, j).Ok?
    ensures var p := ParsePolicy(syntax, j).value;
            ParsePolicy(syntax, PolicyJson(p)) == Ok(CanonicalPolicy(p))
  {
    var p := ParsePolicy(syntax, j).value;
    PolicyIsParsed(syntax, j);
    StatementsRoundTrip(syntax, p.statements);
    var fields := PolicyJson(p).fields;
    assert Field(fields, "Version") == if p.version.None? then None else Some(Str(p.version.value));
    assert fields["Statement"] == Arr(Map(StatementObject, p.statements));
    assert |Map(StatementObject, p.statements)| > 0;
  }

  lemma CanonicalDecides(request: Request, p: Policy)
    ensures Decide(request, CanonicalPolicy(p)) == Decide(request, p)
  {
    var variables := VariablesEnabled(p);
    forall i | 0 <= i < |p.statements|
      ensures StatementDecision(request, variables, CanonicalStatement(p.statements[i]))
           == StatementDecision(request, variables, p.statements[i])
    {
    }
    assert Decisions(request, variables, CanonicalPolicy(p).statements) == Decisions(request, variables, p.statements);
  }

  /** Normalisation preserves meaning and reaches a fixed form. */
  lemma NormalizedDecides(syntax: Syntax, request: Request, j: Json)
    requires ParsePolicy(syntax, j).Ok?
    ensures var p := ParsePolicy(syntax, j).value;
            && ParsePolicy(syntax, PolicyJson(p)).Ok?
            && Decide(request, ParsePolicy(syntax, PolicyJson(p)).value) == Decide(request, p)
            && PolicyJson(ParsePolicy(syntax, PolicyJson(p)).value) == PolicyJson(p)
  {
    var p := ParsePolicy(syntax, j).value;
    NormalizedParses(syntax, j);
    CanonicalDecides(request, p);
    CanonicalPrints(p);
  }

  lemma CanonicalPrints(p: Policy)
    ensures PolicyJson(CanonicalPolicy(p)) == PolicyJson(p)
  {
    forall i | 0 <= i < |p.statements|
      ensures StatementObject(CanonicalStatement(p.statements[i])) == StatementObject(p.statements[i])
    {
    }
    assert Map(StatementObject, Map(CanonicalStatement, p.statements)) == Map(StatementObject, p.statements);
  }
}
