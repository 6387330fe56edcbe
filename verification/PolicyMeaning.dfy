/**
  What a policy document means, and that expansion keeps it. Every document
  has a meaning here, also one the parser refuses: it is read into statements
  without being validated. On accepted documents reading is parsing.
  */
module PolicyMeaning {
  import opened Common
  import opened Decision
  import opened Sequences
  import opened BucketPolicy
  import opened PolicyRewrite
  import opened PolicyExpansion

  // ---------------------------------------------------------------- reading

  /** The strings among the entries. */
  function Texts(entries: seq<Json>): (r: seq<string>)
    ensures forall x :: x in r <==> Str(x) in entries
  {
    if entries == [] then []
    else (if entries[0].Str? then [entries[0].s] else []) + Texts(entries[1..])
  }

  function ReadTexts(value: Option<Json>): seq<string> {
    match value
    case None => []
    case Some(j) => Texts(Entries(j))
  }

  function ReadPrincipal(value: Option<Json>): Principal {
    match value
    case Some(Str(s)) => Principal(s == "*", [], [], [])
    case Some(Obj(fields)) =>
      var aws := ReadTexts(Field(fields, "AWS"));
      Principal("*" in aws, NotWildcard(aws), ReadTexts(Field(fields, "Service")),
                ReadTexts(Field(fields, "CanonicalUser")))
    case _ => Principal(false, [], [], [])
  }

  function ReadConditions(value: Option<Json>): Option<Conditions> {
    match value
    case None => Some(map[])
    case Some(Obj(operators)) => Some(ConditionMap(operators))
    case Some(_) => None
  }

  function ReadText(value: Option<Json>): Option<string> {
    match value
    case Some(Str(s)) => Some(s)
    case _ => None
  }

  /** A statement without an effect, or with malformed conditions, says nothing. */
  function ReadStatement(j: Json): Option<Statement> {
    if !j.Obj? then None
    else match (ParseEffect(Field(j.fields, "Effect")), ReadConditions(Field(j.fields, "Condition")))
    case (Some(effect), Some(conditions)) =>
      Some(Statement(ReadText(Field(j.fields, "Sid")), effect, ReadPrincipal(Field(j.fields, "Principal")),
                     ReadTexts(Field(j.fields, "Action")), ReadTexts(Field(j.fields, "Resource")), conditions))
    case _ => None
  }

  function ReadEach(items: seq<Json>): (r: seq<Statement>)
    ensures forall s :: s in r <==> exists x :: x in items && ReadStatement(x) == Some(s)
  {
    if items == [] then []
    else
      var rest := ReadEach(items[1..]);
      assert forall x :: x in items <==> x == items[0] || x in items[1..];
      match ReadStatement(items[0])
      case None => rest
      case Some(s) => [s] + rest
  }

  function ReadStatements(value: Option<Json>): seq<Statement> {
    match value
    case Some(Arr(items)) => ReadEach(items)
    case Some(Obj(fields)) => ReadEach([Obj(fields)])
    case _ => []
  }

  function ReadPolicy(j: Json): Policy {
    if j.Obj? then Policy(ReadText(Field(j.fields, "Version")), ReadStatements(Field(j.fields, "Statement")))
    else Policy(None, [])
  }

  /** What a document decides, accepted or not. */
  function Meaning(request: Request, j: Json): Decision {
    Decide(request, ReadPolicy(j))
  }

  // ------------------------------------------------------- reading is parsing

  lemma {:induction false} TextsOfStrings(items: seq<Json>)
    requires AllStrings(items)
    ensures Texts(items) == Map(TextOf, items)
  {
    if items != [] {
      TextsOfStrings(items[1..]);
    }
  }

  lemma ParsedTextsRead(j: Json)
    requires StringOrArray(j).Some?
    ensures StringOrArray(j).value == ReadTexts(Some(j))
  {
    TextsOfStrings(Entries(j));
  }

  lemma ParsedPrincipalRead(syntax: Syntax, j: Json)
    requires ParsePrincipal(syntax, j).Some?
    ensures ParsePrincipal(syntax, j).value == ReadPrincipal(Some(j))
  {
    if j.Obj? {
      ParsedKindRead(j.fields, "AWS");
      ParsedKindRead(j.fields, "Service");
      ParsedKindRead(j.fields, "CanonicalUser");
    }
  }

  lemma ParsedKindRead(fields: Fields, kind: string)
    ensures PrincipalValues(fields, kind).Some? ==> PrincipalValues(fields, kind).value == ReadTexts(Field(fields, kind))
  {
    if kind in fields && StringOrArray(fields[kind]).Some? {
      ParsedTextsRead(fields[kind]);
    }
  }

  lemma ParsedStatementRead(syntax: Syntax, j: Json)
    requires ParseStatement(syntax, j).Ok?
    ensures ReadStatement(j) == Some(ParseStatement(syntax, j).value)
  {
    ParsedFieldsRead(syntax, j.fields);
    ParsedPrincipalRead(syntax, j.fields["Principal"]);
    ParsedTextsRead(j.fields["Action"]);
    ParsedTextsRead(j.fields["Resource"]);
  }

  lemma {:induction false} ParsedEachRead(syntax: Syntax, items: seq<Json>)
    requires ParseEach(syntax, items).Ok?
    ensures ReadEach(items) == ParseEach(syntax, items).value
  {
    if items != [] {
      ParsedStatementRead(syntax, items[0]);
      ParsedEachRead(syntax, items[1..]);
    }
  }

  /** The parser returns what the document reads as; it only refuses more. */
  lemma ParsedIsRead(syntax: Syntax, j: Json)
    requires ParsePolicy(syntax, j).Ok?
    ensures ParsePolicy(syntax, j).value == ReadPolicy(j)
  {
    var statement := j.fields["Statement"];
    ParsedEachRead(syntax, if statement.Arr? then statement.items else [statement]);
  }

  // --------------------------------------------------- flat, up to one level

  lemma EntriesAreFlat(fields: Fields, name: string, e: Json)
    requires name in fields && Shallow(fields, name) && e in Entries(fields[name])
    ensures e.Arr? ==> e.items == []
  {
    var entries := Entries(fields[name]);
    var i :| 0 <= i < |entries| && entries[i] == e;
    if fields[name].Arr? {
      assert FlatValue(fields[name].items[i]);
    }
  }

  /** The variants of a value together read as the value. */
  lemma ValueVariantsRead(fields: Fields, name: string, t: string)
    requires Shallow(fields, name)
    ensures t in ReadTexts(Field(fields, name)) <==>
            exists w :: w in ValueVariants(Field(fields, name)) && t in ReadTexts(Some(w))
  {
    var variants := ValueVariants(Field(fields, name));
    if t in ReadTexts(Field(fields, name)) {
      assert Str(t) in variants && t in ReadTexts(Some(Str(t)));
    }
    forall w | w in variants && t in ReadTexts(Some(w))
      ensures t in ReadTexts(Field(fields, name))
    {
      if name in fields && fields[name].Arr? && fields[name].items != [] {
        EntriesAreFlat(fields, name, w);
        assert w == Str(t);
      }
    }
  }

  // -------------------------------------------------- meaning of principals

  /** Whether one principal entry of a given kind admits the requester. */
  predicate EntryMatches(request: Request, kind: string, text: string) {
    || (kind == "AWS" && (text == "*" || request.awsMatches(text)))
    || (kind == "Service" && request.serviceMatches(text))
    || (kind == "CanonicalUser" && request.canonicalUserMatches(text))
  }

  ghost predicate SomeEntryMatches(request: Request, fields: Fields) {
    exists kind, t :: kind in fields && Str(t) in Entries(fields[kind]) && EntryMatches(request, kind, t)
  }

  lemma SomeMatchIn(matches: string -> bool, values: seq<string>)
    ensures SomeMatch(matches, values) <==> exists x :: x in values && matches(x)
  {
    if SomeMatch(matches, values) {
      var i :| 0 <= i < |values| && matches(values[i]);
      assert values[i] in values;
    }
    forall x | x in values && matches(x)
      ensures SomeMatch(matches, values)
    {
      var i :| 0 <= i < |values| && values[i] == x;
    }
  }

  /** Whether the strings under one kind admit the requester. */
  ghost predicate KindMatches(request: Request, fields: Fields, kind: string) {
    exists t :: t in ReadTexts(Field(fields, kind)) && EntryMatches(request, kind, t)
  }

  lemma AwsMatches(request: Request, fields: Fields)
    ensures var p := ReadPrincipal(Some(Obj(fields)));
            p.wildcard || SomeMatch(request.awsMatches, p.aws) <==> KindMatches(request, fields, "AWS")
  {
    var p := ReadPrincipal(Some(Obj(fields)));
    var aws := ReadTexts(Field(fields, "AWS"));
    SomeMatchIn(request.awsMatches, p.aws);
    if p.wildcard {
      assert "*" in aws && EntryMatches(request, "AWS", "*");
    }
    forall x | x in p.aws && request.awsMatches(x)
      ensures KindMatches(request, fields, "AWS")
    {
      assert x in aws && EntryMatches(request, "AWS", x);
    }
  }

  lemma OtherKindsMatch(request: Request, fields: Fields)
    ensures var p := ReadPrincipal(Some(Obj(fields)));
            && (SomeMatch(request.serviceMatches, p.service) <==> KindMatches(request, fields, "Service"))
            && (SomeMatch(request.canonicalUserMatches, p.canonicalUser) <==> KindMatches(request, fields, "CanonicalUser"))
  {
    var p := ReadPrincipal(Some(Obj(fields)));
    SomeMatchIn(request.serviceMatches, p.service);
    SomeMatchIn(request.canonicalUserMatches, p.canonicalUser);
    assert forall x :: EntryMatches(request, "Service", x) <==> request.serviceMatches(x);
    assert forall x :: EntryMatches(request, "CanonicalUser", x) <==> request.canonicalUserMatches(x);
  }

  lemma KindMatchesEntries(request: Request, fields: Fields, kind: string)
    ensures KindMatches(request, fields, kind) <==>
            kind in fields && exists t :: Str(t) in Entries(fields[kind]) && EntryMatches(request, kind, t)
  {
  }

  /** A principal admits the requester exactly when one of its entries does. */
  lemma ReadPrincipalMatches(request: Request, fields: Fields)
    ensures PrincipalMatches(request, ReadPrincipal(Some(Obj(fields)))) <==> SomeEntryMatches(request, fields)
  {
    AwsMatches(request, fields);
    OtherKindsMatch(request, fields);
    KindMatchesEntries(request, fields, "AWS");
    KindMatchesEntries(request, fields, "Service");
    KindMatchesEntries(request, fields, "CanonicalUser");
    if SomeEntryMatches(request, fields) {
      var kind, t :| kind in fields && Str(t) in Entries(fields[kind]) && EntryMatches(request, kind, t);
      assert kind == "AWS" || kind == "Service" || kind == "CanonicalUser";
    }
  }

  /** Without empty kinds, any entry can be completed to a choice. */
  lemma ChoiceWith(fields: Fields, kind: string, e: Json) returns (v: Fields)
    requires !HasEmptyKind(fields, |PRINCIPAL_KINDS|)
    requires kind in fields && KindBefore(kind, |PRINCIPAL_KINDS|) && e in Entries(fields[kind])
    ensures IsChoice(fields, |PRINCIPAL_KINDS|, v) && kind in v && v[kind] == e
  {
    forall name | name in fields && KindBefore(name, |PRINCIPAL_KINDS|)
      ensures Entries(fields[name]) != []
    {
      var k :| 0 <= k < |PRINCIPAL_KINDS| && PRINCIPAL_KINDS[k] == name;
      assert !EmptyKind(fields, PRINCIPAL_KINDS[k]);
    }
    v := map name | name in fields && KindBefore(name, |PRINCIPAL_KINDS|) ::
      if name == kind then e else Entries(fields[name])[0];
  }

  lemma ChoiceCovers(request: Request, fields: Fields) returns (v: Fields)
    requires !HasEmptyKind(fields, |PRINCIPAL_KINDS|) && SomeEntryMatches(request, fields)
    ensures v in Product(fields, |PRINCIPAL_KINDS|) && SomeEntryMatches(request, v)
  {
    var kind, t :| kind in fields && Str(t) in Entries(fields[kind]) && EntryMatches(request, kind, t);
    KnownKindBefore(kind);
    v := ChoiceWith(fields, kind, Str(t));
    ProductMembers(fields, |PRINCIPAL_KINDS|, v);
    assert Str(t) in Entries(v[kind]);
  }

  lemma ChoiceAddsNothing(request: Request, fields: Fields, v: Fields)
    requires ShallowPrincipal(Obj(fields)) && v in Product(fields, |PRINCIPAL_KINDS|) && SomeEntryMatches(request, v)
    ensures SomeEntryMatches(request, fields)
  {
    ProductMembers(fields, |PRINCIPAL_KINDS|, v);
    var kind, t :| kind in v && Str(t) in Entries(v[kind]) && EntryMatches(request, kind, t);
    ChosenText(fields, kind, v[kind], t);
  }

  lemma ChosenText(fields: Fields, kind: string, e: Json, t: string)
    requires ShallowPrincipal(Obj(fields)) && kind in fields && e in Entries(fields[kind]) && Str(t) in Entries(e)
    requires kind == "AWS" || kind == "Service" || kind == "CanonicalUser"
    ensures e == Str(t)
  {
    EntriesAreFlat(fields, kind, e);
  }

  /** The principal variants together admit exactly whom the principal admits. */
  lemma PrincipalVariantsMatch(request: Request, value: Option<Json>)
    requires value.Some? ==> ShallowPrincipal(value.value)
    ensures PrincipalMatches(request, ReadPrincipal(value)) <==>
            exists p :: p in PrincipalVariants(value) && PrincipalMatches(request, ReadPrincipal(Some(p)))
  {
    var variants := PrincipalVariants(value);
    if value.Some? && value.value.Obj? && !HasEmptyKind(value.value.fields, |PRINCIPAL_KINDS|) {
      var fields := value.value.fields;
      var product := Product(fields, |PRINCIPAL_KINDS|);
      ProductNonEmpty(fields, |PRINCIPAL_KINDS|);
      ReadPrincipalMatches(request, fields);
      if SomeEntryMatches(request, fields) {
        var v := ChoiceCovers(request, fields);
        ReadPrincipalMatches(request, v);
        MapObjectMembers(product, Obj(v));
        assert Obj(v) in variants && PrincipalMatches(request, ReadPrincipal(Some(Obj(v))));
      }
      forall p | p in variants && PrincipalMatches(request, ReadPrincipal(Some(p)))
        ensures SomeEntryMatches(request, fields)
      {
        MapObjectMembers(product, p);
        ReadPrincipalMatches(request, p.fields);
        ChoiceAddsNothing(request, fields, p.fields);
      }
    } else {
      assert |variants| == 1 && variants[0] in variants;
      assert PrincipalMatches(request, ReadPrincipal(value)) <==>
             PrincipalMatches(request, ReadPrincipal(Some(variants[0])));
    }
  }

  // -------------------------------------------------- meaning of statements

  /** A combination reads as the statement with three parts replaced. */
  lemma ReplacedReads(fields: Fields, p: Json, a: Json, r: Json)
    ensures ReadStatement(Replace(fields, p, a, r)) ==
            match ReadStatement(Obj(fields))
            case None => None
            case Some(s) => Some(s.(principal := ReadPrincipal(Some(p)), actions := ReadTexts(Some(a)),
                                    resources := ReadTexts(Some(r))))
  {
    ReplaceReads(fields, p, a, r);
  }

  lemma SelectsByMembers(request: Request, variables: bool, s: Statement)
    ensures Selects(request, variables, s) <==>
            && PrincipalMatches(request, s.principal)
            && (exists a :: a in s.actions && request.actionMatches(a))
            && (exists r :: r in s.resources && request.resourceMatches(variables, r))
  {
    SomeMatchIn(request.actionMatches, s.actions);
    if ResourceMatches(request, variables, s.resources) {
      var i :| 0 <= i < |s.resources| && request.resourceMatches(variables, s.resources[i]);
      assert s.resources[i] in s.resources;
    }
    forall r | r in s.resources && request.resourceMatches(variables, r)
      ensures ResourceMatches(request, variables, s.resources)
    {
      var i :| 0 <= i < |s.resources| && s.resources[i] == r;
    }
  }

  /** What a document fragment decides, when it says anything. */
  function Says(request: Request, variables: bool, j: Json): Decision {
    match ReadStatement(j)
    case None => NoMatch
    case Some(s) => StatementDecision(request, variables, s)
  }

  /** One choice out of the principals, actions and resources of a statement. */
  predicate IsCombination(fields: Fields, p: Json, a: Json, r: Json) {
    && p in PrincipalVariants(Field(fields, "Principal"))
    && a in ValueVariants(Field(fields, "Action")) && r in ValueVariants(Field(fields, "Resource"))
  }

  lemma ExpansionMember(fields: Fields, p: Json, a: Json, r: Json)
    requires IsCombination(fields, p, a, r)
    ensures Replace(fields, p, a, r) in ExpandFields(fields)
  {
    OverPrincipalsMembers(fields, PrincipalVariants(Field(fields, "Principal")), ValueVariants(Field(fields, "Action")),
                          ValueVariants(Field(fields, "Resource")), Replace(fields, p, a, r));
  }

  /** One combination that is selected when the statement is. */
  lemma SelectedCombination(request: Request, variables: bool, fields: Fields, s: Statement)
    returns (p: Json, a: Json, r: Json)
    requires ShallowStatement(Obj(fields)) && ReadStatement(Obj(fields)) == Some(s) && Selects(request, variables, s)
    ensures IsCombination(fields, p, a, r)
    ensures Selects(request, variables,
                    s.(principal := ReadPrincipal(Some(p)), actions := ReadTexts(Some(a)), resources := ReadTexts(Some(r))))
  {
    SelectsByMembers(request, variables, s);
    PrincipalVariantsMatch(request, Field(fields, "Principal"));
    p :| p in PrincipalVariants(Field(fields, "Principal")) && PrincipalMatches(request, ReadPrincipal(Some(p)));
    a := SelectedAction(request, fields, s);
    r := SelectedResource(request, variables, fields, s);
    SelectsByMembers(request, variables,
                     s.(principal := ReadPrincipal(Some(p)), actions := ReadTexts(Some(a)), resources := ReadTexts(Some(r))));
  }

  lemma SelectedAction(request: Request, fields: Fields, s: Statement) returns (a: Json)
    requires Shallow(fields, "Action") && s.actions == ReadTexts(Field(fields, "Action"))
    requires exists t :: t in s.actions && request.actionMatches(t)
    ensures a in ValueVariants(Field(fields, "Action"))
    ensures exists t :: t in ReadTexts(Some(a)) && request.actionMatches(t)
  {
    var t :| t in s.actions && request.actionMatches(t);
    ValueVariantsRead(fields, "Action", t);
    a :| a in ValueVariants(Field(fields, "Action")) && t in ReadTexts(Some(a));
  }

  lemma SelectedResource(request: Request, variables: bool, fields: Fields, s: Statement) returns (r: Json)
    requires Shallow(fields, "Resource") && s.resources == ReadTexts(Field(fields, "Resource"))
    requires exists t :: t in s.resources && request.resourceMatches(variables, t)
    ensures r in ValueVariants(Field(fields, "Resource"))
    ensures exists t :: t in ReadTexts(Some(r)) && request.resourceMatches(variables, t)
  {
    var t :| t in s.resources && request.resourceMatches(variables, t);
    ValueVariantsRead(fields, "Resource", t);
    r :| r in ValueVariants(Field(fields, "Resource")) && t in ReadTexts(Some(r));
  }

  /** What a statement decides, one of its combinations decides. */
  lemma ExpansionCovers(request: Request, variables: bool, fields: Fields) returns (x: Json)
    requires ShallowStatement(Obj(fields)) && Says(request, variables, Obj(fields)) != NoMatch
    ensures x in ExpandFields(fields)
    ensures Says(request, variables, x) == Says(request, variables, Obj(fields))
  {
    var p, a, r := SelectedCombination(request, variables, fields, ReadStatement(Obj(fields)).value);
    x := Replace(fields, p, a, r);
    ExpansionMember(fields, p, a, r);
    ReplacedReads(fields, p, a, r);
  }

  lemma MemberCombination(fields: Fields, x: Json) returns (p: Json, a: Json, r: Json)
    requires x in ExpandFields(fields)
    ensures IsCombination(fields, p, a, r) && x == Replace(fields, p, a, r)
  {
    var ps := PrincipalVariants(Field(fields, "Principal"));
    var acts, rs := ValueVariants(Field(fields, "Action")), ValueVariants(Field(fields, "Resource"));
    OverPrincipalsMembers(fields, ps, acts, rs, x);
    p, a, r :| p in ps && a in acts && r in rs && x == Replace(fields, p, a, r);
  }

  /** A statement is selected whenever one of its combinations is. */
  lemma CombinationSelects(request: Request, variables: bool, fields: Fields, s: Statement, p: Json, a: Json, r: Json)
    requires ShallowStatement(Obj(fields)) && ReadStatement(Obj(fields)) == Some(s) && IsCombination(fields, p, a, r)
    requires Selects(request, variables,
                     s.(principal := ReadPrincipal(Some(p)), actions := ReadTexts(Some(a)), resources := ReadTexts(Some(r))))
    ensures Selects(request, variables, s)
  {
    var t := s.(principal := ReadPrincipal(Some(p)), actions := ReadTexts(Some(a)), resources := ReadTexts(Some(r)));
    SelectsByMembers(request, variables, t);
    SelectsByMembers(request, variables, s);
    PrincipalVariantsMatch(request, Field(fields, "Principal"));
    var action :| action in t.actions && request.actionMatches(action);
    var resource :| resource in t.resources && request.resourceMatches(variables, resource);
    ValueVariantsRead(fields, "Action", action);
    ValueVariantsRead(fields, "Resource", resource);
  }

  /** What one combination decides, the statement decides. */
  lemma ExpansionAddsNothing(request: Request, variables: bool, fields: Fields, x: Json)
    requires ShallowStatement(Obj(fields)) && x in ExpandFields(fields) && Says(request, variables, x) != NoMatch
    ensures Says(request, variables, Obj(fields)) == Says(request, variables, x)
  {
    var p, a, r := MemberCombination(fields, x);
    ReplacedReads(fields, p, a, r);
    CombinationSelects(request, variables, fields, ReadStatement(Obj(fields)).value, p, a, r);
  }

  // ---------------------------------------------------- meaning of policies

  ghost predicate SomeSays(request: Request, variables: bool, items: seq<Json>, d: Decision) {
    exists x :: x in items && Says(request, variables, x) == d
  }

  lemma ReadEachDecides(request: Request, variables: bool, items: seq<Json>, d: Decision)
    requires d != NoMatch
    ensures d in Decisions(request, variables, ReadEach(items)) <==> SomeSays(request, variables, items, d)
  {
    var statements := ReadEach(items);
    var ds := Decisions(request, variables, statements);
    if d in ds {
      var i :| 0 <= i < |ds| && ds[i] == d;
      assert statements[i] in statements;
      var x :| x in items && ReadStatement(x) == Some(statements[i]);
      assert Says(request, variables, x) == d;
    }
    forall x | x in items && Says(request, variables, x) == d
      ensures d in ds
    {
      assert ReadStatement(x).value in statements;
      var i :| 0 <= i < |statements| && statements[i] == ReadStatement(x).value;
      assert ds[i] == d;
    }
  }

  lemma ExpandedItemsSay(request: Request, variables: bool, items: seq<Json>, d: Decision)
    requires forall i :: 0 <= i < |items| ==> ShallowStatement(items[i])
    requires d != NoMatch
    ensures SomeSays(request, variables, items, d) <==> SomeSays(request, variables, ExpandedItems(items), d)
  {
    forall x | x in items && Says(request, variables, x) == d
      ensures SomeSays(request, variables, ExpandedItems(items), d)
    {
      var i :| 0 <= i < |items| && items[i] == x;
      var y := ExpansionCovers(request, variables, x.fields);
      FallbacksUnreachable(x.fields);
      ExpandedItemsMembers(items, y);
    }
    forall y | y in ExpandedItems(items) && Says(request, variables, y) == d
      ensures SomeSays(request, variables, items, d)
    {
      ExpandedItemsMembers(items, y);
      var i :| 0 <= i < |items| && y in ExpandStatement(items[i]);
      if items[i].Obj? {
        FallbacksUnreachable(items[i].fields);
        ExpansionAddsNothing(request, variables, items[i].fields, y);
      }
      assert items[i] in items;
    }
  }

  /**
    Expansion preserves meaning: every document whose arrays are not nested,
    accepted or not and with empty arrays anywhere, decides every request as
    its expansion does, whatever the matchers.
    */
  lemma ExpandMeans(request: Request, j: Json)
    requires ShallowPolicy(j)
    ensures Meaning(request, ExpandPolicy(j)) == Meaning(request, j)
  {
    if ExpandsStatements(j) {
      var items := j.fields["Statement"].items;
      var expanded := ExpandedItems(items);
      assert Field(ExpandPolicy(j).fields, "Version") == Field(j.fields, "Version");
      assert Field(ExpandPolicy(j).fields, "Statement") == Some(Arr(expanded));
      var variables := VariablesEnabled(ReadPolicy(j));
      forall d: Decision | d != NoMatch
        ensures d in Decisions(request, variables, ReadEach(items)) <==> d in Decisions(request, variables, ReadEach(expanded))
      {
        ReadEachDecides(request, variables, items, d);
        ReadEachDecides(request, variables, expanded, d);
        ExpandedItemsSay(request, variables, items, d);
      }
      UnionByMembers(Decisions(request, variables, ReadEach(items)), Decisions(request, variables, ReadEach(expanded)));
    }
  }

  // ------------------------------------------------------ accepted documents

  lemma ParsedValueIsShallow(fields: Fields, name: string)
    requires name in fields ==> StringOrArray(fields[name]).Some?
    ensures Shallow(fields, name)
  {
  }

  lemma ParsedStatementIsShallow(syntax: Syntax, j: Json)
    requires ParseStatement(syntax, j).Ok?
    ensures ShallowStatement(j)
  {
    ParsedFieldsRead(syntax, j.fields);
    ParsedValueIsShallow(j.fields, "Action");
    ParsedValueIsShallow(j.fields, "Resource");
    var principal := j.fields["Principal"];
    if principal.Obj? {
      ParsedPrincipalIsFlat(syntax, principal.fields);
      ParsedValueIsShallow(principal.fields, "AWS");
      ParsedValueIsShallow(principal.fields, "Service");
      ParsedValueIsShallow(principal.fields, "CanonicalUser");
    }
  }

  lemma AcceptedIsShallow(syntax: Syntax, j: Json)
    requires ParsePolicy(syntax, j).Ok?
    ensures ShallowPolicy(j)
  {
    if ExpandsStatements(j) {
      var items := j.fields["Statement"].items;
      forall i | 0 <= i < |items|
        ensures ShallowStatement(items[i])
      {
        ParsedStatementIsShallow(syntax, items[i]);
      }
    }
  }

  /**
    The expansion of every accepted policy decides every request as the policy
    does, also when the parser would refuse the expansion.
    */
  lemma ExpandMeansAccepted(syntax: Syntax, request: Request, j: Json)
    requires ParsePolicy(syntax, j).Ok?
    ensures Meaning(request, ExpandPolicy(j)) == Decide(request, ParsePolicy(syntax, j).value)
  {
    ParsedIsRead(syntax, j);
    AcceptedIsShallow(syntax, j);
    ExpandMeans(request, j);
  }

  /** In particular, when the parser accepts the expansion too. */
  lemma ExpandDecides(syntax: Syntax, request: Request, j: Json)
    requires ParsePolicy(syntax, j).Ok? && ParsePolicy(syntax, ExpandPolicy(j)).Ok?
    ensures Decide(request, ParsePolicy(syntax, ExpandPolicy(j)).value) == Decide(request, ParsePolicy(syntax, j).value)
  {
    ExpandMeansAccepted(syntax, request, j);
    ParsedIsRead(syntax, ExpandPolicy(j));
  }
}
