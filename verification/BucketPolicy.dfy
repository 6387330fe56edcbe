/**
  Bucket policy documents: parsing a JSON value into statements and deciding
  a request. Wildcard matching, condition operators and the account universe
  are arbitrary functions of the caller.
  */
module BucketPolicy {
  import opened Common
  import opened Decision
  import opened Sequences

  // ------------------------------------------------------------------- JSON

  /** Numbers keep their printed form. */
  datatype Json =
    | Null
    | Bool(b: bool)
    | Num(text: string)
    | Str(s: string)
    | Arr(items: seq<Json>)
    | Obj(fields: map<string, Json>)

  function Field(fields: map<string, Json>, name: string): Option<Json> {
    if name in fields then Some(fields[name]) else None
  }

  // ------------------------------------------------------------- data model

  datatype Effect = Allow | Deny

  datatype Principal = Principal(wildcard: bool, aws: seq<string>, service: seq<string>, canonicalUser: seq<string>)

  datatype Clause = Clause(operator: string, key: string, values: seq<string>)

  /** Condition operands by operator and condition key. */
  type Conditions = map<(string, string), seq<string>>

  datatype Statement = Statement(
    sid: Option<string>, effect: Effect, principal: Principal, actions: seq<string>, resources: seq<string>,
    conditions: Conditions)

  datatype Policy = Policy(version: Option<string>, statements: seq<Statement>)

  datatype PolicyError =
    | NotAnObject | BadVersion | MissingStatement | EmptyStatement | BadStatement
    | NegatedElement | BadSid | BadEffect | BadPrincipal | BadAction | BadResource
    | InvalidAction | InapplicableAction | BadCondition

  /** The parts of policy syntax that depend on the supported service actions. */
  datatype Syntax = Syntax(
    awsPrincipalOk: string -> bool,
    isBucketAction: string -> bool,
    isObjectAction: string -> bool,
    clauseOk: Clause -> bool)

  // ---------------------------------------------------------------- parsing

  predicate AllStrings(items: seq<Json>) {
    forall i :: 0 <= i < |items| ==> items[i].Str?
  }

  function TextOf(j: Json): string {
    if j.Str? then j.s else ""
  }

  /** A string, or a non-empty array of strings. */
  function StringOrArray(j: Json): (r: Option<seq<string>>)
    ensures r.Some? ==> r.value != []
  {
    match j
    case Str(s) => Some([s])
    case Arr(items) => if items != [] && AllStrings(items) then Some(Map(TextOf, items)) else None
    case _ => None
  }

  /** The values under one principal kind; an absent kind contributes none. */
  function PrincipalValues(fields: map<string, Json>, kind: string): Option<seq<string>> {
    if kind !in fields then Some([]) else StringOrArray(fields[kind])
  }

  function NotWildcard(values: seq<string>): (r: seq<string>)
    ensures forall x :: x in r <==> x in values && x != "*"
  {
    if values == [] then []
    else if values[0] == "*" then NotWildcard(values[1..])
    else [values[0]] + NotWildcard(values[1..])
  }

  const PRINCIPAL_KINDS: seq<string> := ["AWS", "Service", "CanonicalUser"]

  predicate KnownKinds(fields: map<string, Json>) {
    forall kind :: kind in fields ==> kind == "AWS" || kind == "Service" || kind == "CanonicalUser"
  }

  function ParsePrincipal(syntax: Syntax, j: Json): Option<Principal> {
    match j
    case Str(s) => if s == "*" then Some(Principal(true, [], [], [])) else None
    case Obj(fields) =>
      (match (PrincipalValues(fields, "AWS"), PrincipalValues(fields, "Service"),
              PrincipalValues(fields, "CanonicalUser"))
       case (Some(aws), Some(service), Some(canonical)) =>
         var named := NotWildcard(aws);
         if !KnownKinds(fields) || fields == map[] || !(forall i :: 0 <= i < |named| ==> syntax.awsPrincipalOk(named[i]))
         then None
         else Some(Principal("*" in aws, named, service, canonical))
       case _ => None)
    case _ => None
  }

  predicate BucketScope(resource: string) {
    || resource == "*" || resource == "arn:aws:s3:::*"
    || ("arn:aws:s3:::" <= resource && '/' !in resource[|"arn:aws:s3:::"|..])
  }

  predicate ObjectScope(resource: string) {
    || resource == "*" || resource == "arn:aws:s3:::*"
    || ("arn:aws:s3:::" <= resource && '/' in resource[|"arn:aws:s3:::"|..])
  }

  predicate SomeBucket(resources: seq<string>) {
    exists i :: 0 <= i < |resources| && BucketScope(resources[i])
  }

  predicate SomeObject(resources: seq<string>) {
    exists i :: 0 <= i < |resources| && ObjectScope(resources[i])
  }

  predicate Supported(syntax: Syntax, action: string) {
    syntax.isBucketAction(action) || syntax.isObjectAction(action)
  }

  /** Every kind of resource the action works on is named. */
  predicate Applies(syntax: Syntax, action: string, resources: seq<string>) {
    && (syntax.isObjectAction(action) ==> SomeObject(resources))
    && (syntax.isBucketAction(action) ==> SomeBucket(resources))
  }

  predicate ActionsSupported(syntax: Syntax, actions: seq<string>) {
    forall i :: 0 <= i < |actions| ==> Supported(syntax, actions[i])
  }

  predicate ActionsApply(syntax: Syntax, actions: seq<string>, resources: seq<string>) {
    forall i :: 0 <= i < |actions| ==> Applies(syntax, actions[i], resources)
  }

  /** A condition operand: text or numbers, one or a non-empty array. */
  function OperandValues(j: Json): Option<seq<string>> {
    match j
    case Str(s) => Some([s])
    case Num(t) => Some([t])
    case Arr(items) =>
      if items != [] && forall i :: 0 <= i < |items| ==> items[i].Str? || items[i].Num?
      then Some(Map(OperandText, items)) else None
    case _ => None
  }

  function OperandText(j: Json): string {
    match j
    case Str(s) => s
    case Num(t) => t
    case _ => ""
  }

  function OperandsOf(j: Json): map<string, Json> {
    if j.Obj? then j.fields else map[]
  }

  predicate OperandOk(syntax: Syntax, operator: string, key: string, j: Json) {
    match OperandValues(j)
    case None => false
    case Some(values) => syntax.clauseOk(Clause(operator, key, values))
  }

  function ValuesOf(j: Json): seq<string> {
    match OperandValues(j)
    case None => []
    case Some(values) => values
  }

  predicate OperatorOk(syntax: Syntax, operator: string, j: Json) {
    j.Obj? && forall key :: key in j.fields ==> OperandOk(syntax, operator, key, j.fields[key])
  }

  predicate OperatorsOk(syntax: Syntax, operators: map<string, Json>) {
    forall operator :: operator in operators ==> OperatorOk(syntax, operator, operators[operator])
  }

  function ConditionMap(operators: map<string, Json>): Conditions {
    map operator, key | operator in operators && key in OperandsOf(operators[operator]) ::
      (operator, key) := ValuesOf(OperandsOf(operators[operator])[key])
  }

  /** One clause per operator and key. */
  function ParseConditions(syntax: Syntax, j: Option<Json>): Option<Conditions> {
    match j
    case None => Some(map[])
    case Some(Obj(operators)) =>
      if OperatorsOk(syntax, operators) then Some(ConditionMap(operators)) else None
    case Some(_) => None
  }

  function ParseEffect(j: Option<Json>): Option<Effect> {
    if j == Some(Str("Allow")) then Some(Allow)
    else if j == Some(Str("Deny")) then Some(Deny)
    else None
  }

  function ParseSid(j: Option<Json>): Option<Option<string>> {
    match j
    case None => Some(None)
    case Some(Str(s)) => Some(Some(s))
    case Some(_) => None
  }

  function Required(j: Option<Json>): Option<seq<string>> {
    match j
    case None => None
    case Some(v) => StringOrArray(v)
  }

  function RequiredPrincipal(syntax: Syntax, j: Option<Json>): Option<Principal> {
    match j
    case None => None
    case Some(v) => ParsePrincipal(syntax, v)
  }

  predicate Negated(fields: map<string, Json>) {
    "NotPrincipal" in fields || "NotAction" in fields || "NotResource" in fields
  }

  function OrError<T>(value: Option<T>, error: PolicyError): Result<T, PolicyError> {
    match value
    case None => Err(error)
    case Some(v) => Ok(v)
  }

  /** Every action must be supported before any is checked against the resources. */
  function CheckApplicability(syntax: Syntax, actions: seq<string>, resources: seq<string>): Result<(), PolicyError> {
    if !ActionsSupported(syntax, actions) then Err(InvalidAction)
    else if !ActionsApply(syntax, actions, resources) then Err(InapplicableAction)
    else Ok(())
  }

  function ParseFields(syntax: Syntax, fields: map<string, Json>): Result<Statement, PolicyError> {
    if Negated(fields) then Err(NegatedElement)
    else
      var sid :- OrError(ParseSid(Field(fields, "Sid")), BadSid);
      var effect :- OrError(ParseEffect(Field(fields, "Effect")), BadEffect);
      var principal :- OrError(RequiredPrincipal(syntax, Field(fields, "Principal")), BadPrincipal);
      var actions :- OrError(Required(Field(fields, "Action")), BadAction);
      var resources :- OrError(Required(Field(fields, "Resource")), BadResource);
      var _ :- CheckApplicability(syntax, actions, resources);
      var conditions :- OrError(ParseConditions(syntax, Field(fields, "Condition")), BadCondition);
      Ok(Statement(sid, effect, principal, actions, resources, conditions))
  }

  /** A statement is assembled from what its fields read as. */
  lemma ParseFieldsFrom(syntax: Syntax, fields: map<string, Json>, s: Statement)
    requires !Negated(fields)
    requires ParseSid(Field(fields, "Sid")) == Some(s.sid) && ParseEffect(Field(fields, "Effect")) == Some(s.effect)
    requires RequiredPrincipal(syntax, Field(fields, "Principal")) == Some(s.principal)
    requires Required(Field(fields, "Action")) == Some(s.actions)
    requires Required(Field(fields, "Resource")) == Some(s.resources)
    requires ParseConditions(syntax, Field(fields, "Condition")) == Some(s.conditions)
    ensures ParseFields(syntax, fields) ==
            match CheckApplicability(syntax, s.actions, s.resources)
            case Err(e) => Err(e)
            case Ok(_) => Ok(s)
  {
  }

  /** What the fields of an accepted statement read as. */
  lemma ParsedFieldsRead(syntax: Syntax, fields: map<string, Json>)
    requires ParseFields(syntax, fields).Ok?
    ensures var s := ParseFields(syntax, fields).value;
            && !Negated(fields)
            && ParseSid(Field(fields, "Sid")) == Some(s.sid) && ParseEffect(Field(fields, "Effect")) == Some(s.effect)
            && RequiredPrincipal(syntax, Field(fields, "Principal")) == Some(s.principal)
            && Required(Field(fields, "Action")) == Some(s.actions)
            && Required(Field(fields, "Resource")) == Some(s.resources)
            && CheckApplicability(syntax, s.actions, s.resources).Ok?
            && ParseConditions(syntax, Field(fields, "Condition")) == Some(s.conditions)
  {
  }

  function ParseStatement(syntax: Syntax, j: Json): Result<Statement, PolicyError> {
    if j.Obj? then ParseFields(syntax, j.fields) else Err(BadStatement)
  }

  /** All statements, or the error of the first bad one. */
  function ParseEach(syntax: Syntax, items: seq<Json>): (r: Result<seq<Statement>, PolicyError>)
    ensures r.Ok? <==> forall i :: 0 <= i < |items| ==> ParseStatement(syntax, items[i]).Ok?
    ensures r.Ok? ==> |r.value| == |items|
    ensures r.Ok? ==> forall i :: 0 <= i < |items| ==> ParseStatement(syntax, items[i]) == Ok(r.value[i])
  {
    if items == [] then Ok([])
    else
      var first := ParseStatement(syntax, items[0]);
      if first.Err? then Err(first.error)
      else match ParseEach(syntax, items[1..])
      case Err(e) => Err(e)
      case Ok(rest) => Ok([first.value] + rest)
  }

  function ParseStatements(syntax: Syntax, j: Json): Result<seq<Statement>, PolicyError> {
    match j
    case Arr(items) => if items == [] then Err(EmptyStatement) else ParseEach(syntax, items)
    case Obj(_) => ParseEach(syntax, [j])
    case _ => Err(BadStatement)
  }

  function ParseVersion(j: Option<Json>): Option<Option<string>> {
    match j
    case None => Some(None)
    case Some(Str(s)) => if s == "2008-10-17" || s == "2012-10-17" then Some(Some(s)) else None
    case Some(_) => None
  }

  function ParsePolicy(syntax: Syntax, j: Json): Result<Policy, PolicyError> {
    if !j.Obj? then Err(NotAnObject)
    else
      var version :- OrError(ParseVersion(Field(j.fields, "Version")), BadVersion);
      if "Statement" !in j.fields then Err(MissingStatement)
      else
        var statements :- ParseStatements(syntax, j.fields["Statement"]);
        Ok(Policy(version, statements))
  }

  // ------------------------------------------------------------- evaluation

  datatype ConditionResult = Matches | DoesNotMatch | NotEvaluable | InputUnavailable | Unsupported

  /** How one request answers each pattern; `variables` enables templates. */
  datatype Request = Request(
    awsMatches: string -> bool,
    serviceMatches: string -> bool,
    canonicalUserMatches: string -> bool,
    actionMatches: string -> bool,
    resourceMatches: (bool, string) -> bool,
    clauseResult: (bool, Clause) -> ConditionResult)

  predicate SomeMatch(matches: string -> bool, values: seq<string>) {
    exists i :: 0 <= i < |values| && matches(values[i])
  }

  predicate PrincipalMatches(request: Request, p: Principal) {
    || p.wildcard
    || SomeMatch(request.awsMatches, p.aws)
    || SomeMatch(request.serviceMatches, p.service)
    || SomeMatch(request.canonicalUserMatches, p.canonicalUser)
  }

  predicate ResourceMatches(request: Request, variables: bool, resources: seq<string>) {
    exists i :: 0 <= i < |resources| && request.resourceMatches(variables, resources[i])
  }

  function ClauseResult(request: Request, variables: bool, conditions: Conditions, k: (string, string)): ConditionResult
    requires k in conditions
  {
    request.clauseResult(variables, Clause(k.0, k.1, conditions[k]))
  }

  predicate SomeClause(
    request: Request, variables: bool, conditions: Conditions, among: set<(string, string)>, result: ConditionResult)
  {
    exists k :: k in among && k in conditions && ClauseResult(request, variables, conditions, k) == result
  }

  /** A mismatch wins; then the strongest reason for not deciding. */
  function ConditionsResult(request: Request, variables: bool, conditions: Conditions): ConditionResult {
    var all := conditions.Keys;
    if SomeClause(request, variables, conditions, all, DoesNotMatch) then DoesNotMatch
    else if SomeClause(request, variables, conditions, all, Unsupported) then Unsupported
    else if SomeClause(request, variables, conditions, all, InputUnavailable) then InputUnavailable
    else if SomeClause(request, variables, conditions, all, NotEvaluable) then NotEvaluable
    else Matches
  }

  lemma SomeClauseStep(
    request: Request, variables: bool, conditions: Conditions, done: set<(string, string)>, k: (string, string),
    result: ConditionResult)
    requires k in conditions
    ensures SomeClause(request, variables, conditions, done + {k}, result) <==>
            || SomeClause(request, variables, conditions, done, result)
            || ClauseResult(request, variables, conditions, k) == result
  {
    if SomeClause(request, variables, conditions, done, result) {
      var k' :| k' in done && k' in conditions && ClauseResult(request, variables, conditions, k') == result;
      assert k' in done + {k};
    }
    assert k in done + {k};
  }

  /** What the clause loop has seen among the clauses visited so far. */
  datatype Tally = Tally(unsupported: bool, unavailable: bool, notEvaluable: bool)

  ghost predicate Tallies(
    request: Request, variables: bool, conditions: Conditions, done: set<(string, string)>, tally: Tally)
  {
    && !SomeClause(request, variables, conditions, done, DoesNotMatch)
    && (tally.unsupported <==> SomeClause(request, variables, conditions, done, Unsupported))
    && (tally.unavailable <==> SomeClause(request, variables, conditions, done, InputUnavailable))
    && (tally.notEvaluable <==> SomeClause(request, variables, conditions, done, NotEvaluable))
  }

  function Count(tally: Tally, result: ConditionResult): Tally {
    Tally(tally.unsupported || result == Unsupported, tally.unavailable || result == InputUnavailable,
          tally.notEvaluable || result == NotEvaluable)
  }

  lemma TallyStep(
    request: Request, variables: bool, conditions: Conditions, done: set<(string, string)>, tally: Tally,
    k: (string, string))
    requires k in conditions && Tallies(request, variables, conditions, done, tally)
    requires ClauseResult(request, variables, conditions, k) != DoesNotMatch
    ensures Tallies(request, variables, conditions, done + {k},
                    Count(tally, ClauseResult(request, variables, conditions, k)))
  {
    SomeClauseStep(request, variables, conditions, done, k, DoesNotMatch);
    SomeClauseStep(request, variables, conditions, done, k, Unsupported);
    SomeClauseStep(request, variables, conditions, done, k, InputUnavailable);
    SomeClauseStep(request, variables, conditions, done, k, NotEvaluable);
  }

  /** The clause loop, visiting the clauses in any order. */
  method EvaluateConditions(request: Request, variables: bool, conditions: Conditions)
    returns (r: ConditionResult)
    ensures r == ConditionsResult(request, variables, conditions)
  {
    var rest := conditions.Keys;
    var tally := Tally(false, false, false);
    ghost var done: set<(string, string)> := {};
    while rest != {}
      invariant done + rest == conditions.Keys
      invariant Tallies(request, variables, conditions, done, tally)
      decreases |rest|
    {
      var k :| k in rest;
      assert k in conditions.Keys;
      var result := ClauseResult(request, variables, conditions, k);
      if result == DoesNotMatch {
        return DoesNotMatch;
      }
      TallyStep(request, variables, conditions, done, tally, k);
      tally := Count(tally, result);
      rest, done := rest - {k}, done + {k};
    }
    assert done == conditions.Keys;
    return if tally.unsupported then Unsupported
           else if tally.unavailable then InputUnavailable
           else if tally.notEvaluable then NotEvaluable
           else Matches;
  }

  /** What a statement decides once principal, action and resource match. */
  function ConditionDecision(effect: Effect, result: ConditionResult): Decision {
    match result
    case Matches => if effect == Deny then ExplicitDeny else ExplicitAllow
    case Unsupported => if effect == Deny then ExplicitDeny else NoMatch
    case _ => NoMatch
  }

  predicate Selects(request: Request, variables: bool, s: Statement) {
    && PrincipalMatches(request, s.principal)
    && SomeMatch(request.actionMatches, s.actions)
    && ResourceMatches(request, variables, s.resources)
  }

  function StatementDecision(request: Request, variables: bool, s: Statement): Decision {
    if Selects(request, variables, s)
    then ConditionDecision(s.effect, ConditionsResult(request, variables, s.conditions))
    else NoMatch
  }

  predicate VariablesEnabled(p: Policy) {
    p.version == Some("2012-10-17")
  }

  function Decisions(request: Request, variables: bool, statements: seq<Statement>): (r: seq<Decision>)
    ensures |r| == |statements|
    ensures forall i :: 0 <= i < |r| ==> r[i] == StatementDecision(request, variables, statements[i])
  {
    seq(|statements|, i requires 0 <= i < |statements| => StatementDecision(request, variables, statements[i]))
  }

  /** The deny-first union over statements. */
  function Decide(request: Request, p: Policy): Decision {
    Union(Decisions(request, VariablesEnabled(p), p.statements))
  }

  predicate Fires(request: Request, variables: bool, s: Statement, result: ConditionResult) {
    Selects(request, variables, s) && ConditionsResult(request, variables, s.conditions) == result
  }

  predicate SomeFires(request: Request, variables: bool, statements: seq<Statement>, effect: Effect, result: ConditionResult) {
    exists i :: 0 <= i < |statements| && statements[i].effect == effect && Fires(request, variables, statements[i], result)
  }

  /**
    Exactly when a policy denies or allows. A condition that cannot be
    evaluated counts against the requester: it denies in a denial and never
    grants.
    */
  lemma DecideExactly(request: Request, p: Policy)
    ensures var v := VariablesEnabled(p);
            && (Decide(request, p) == ExplicitDeny <==>
                  SomeFires(request, v, p.statements, Deny, Matches)
                  || SomeFires(request, v, p.statements, Deny, Unsupported))
            && (Decide(request, p) == ExplicitAllow <==>
                  Decide(request, p) != ExplicitDeny && SomeFires(request, v, p.statements, Allow, Matches))
  {
    var v := VariablesEnabled(p);
    var ds := Decisions(request, v, p.statements);
    forall d | d in ds && d != NoMatch
      ensures if d == ExplicitAllow then SomeFires(request, v, p.statements, Allow, Matches)
              else SomeFires(request, v, p.statements, Deny, Matches) || SomeFires(request, v, p.statements, Deny, Unsupported)
    {
      var i :| 0 <= i < |ds| && ds[i] == d;
      assert Fires(request, v, p.statements[i], ConditionsResult(request, v, p.statements[i].conditions));
    }
    FiresDecides(request, v, p.statements, Deny, Matches);
    FiresDecides(request, v, p.statements, Deny, Unsupported);
    FiresDecides(request, v, p.statements, Allow, Matches);
  }

  lemma FiresDecides(request: Request, variables: bool, statements: seq<Statement>, effect: Effect, result: ConditionResult)
    ensures SomeFires(request, variables, statements, effect, result) ==>
              ConditionDecision(effect, result) in Decisions(request, variables, statements)
  {
    if SomeFires(request, variables, statements, effect, result) {
      var i :| 0 <= i < |statements| && statements[i].effect == effect && Fires(request, variables, statements[i], result);
      assert Decisions(request, variables, statements)[i] == ConditionDecision(effect, result);
    }
  }

  /** The evaluation loop with its early return on a denial. */
  method Evaluate(request: Request, p: Policy) returns (d: Decision)
    ensures d == Decide(request, p)
  {
    var sawAllow := false;
    var variables := VariablesEnabled(p);
    ghost var all := Decisions(request, variables, p.statements);
    for i := 0 to |p.statements|
      invariant ExplicitDeny !in all[..i]
      invariant sawAllow <==> ExplicitAllow in all[..i]
    {
      assert all[..i + 1] == all[..i] + [all[i]];
      var s := p.statements[i];
      if Selects(request, variables, s) {
        var result := EvaluateConditions(request, variables, s.conditions);
        match ConditionDecision(s.effect, result)
        case ExplicitDeny =>
          assert all[i] == ExplicitDeny;
          return ExplicitDeny;
        case ExplicitAllow => sawAllow := true;
        case NoMatch =>
      }
    }
    assert all[..|p.statements|] == all;
    return if sawAllow then ExplicitAllow else NoMatch;
  }
}
