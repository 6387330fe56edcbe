/** Documents at the limits of the laws about expansion. */
module PolicyLimits {
  import opened Common
  import opened Decision
  import opened Sequences
  import opened BucketPolicy
  import opened PolicyRewrite
  import opened PolicyExpansion
  import opened PolicyMeaning
  import opened PolicyNormalForm

  function OneStatement(fields: Fields): Json {
    Obj(map["Statement" := Arr([Obj(fields)])])
  }

  function AllowAnyone(action: Json, resource: Json): Fields {
    map["Effect" := Str("Allow"), "Principal" := Str("*"), "Action" := action, "Resource" := resource]
  }

  lemma AllowAnyoneReads(action: Json, resource: Json)
    ensures var fields := AllowAnyone(action, resource);
            && Field(fields, "Effect") == Some(Str("Allow")) && Field(fields, "Principal") == Some(Str("*"))
            && Field(fields, "Action") == Some(action) && Field(fields, "Resource") == Some(resource)
            && Field(fields, "Sid") == None && Field(fields, "Condition") == None && !Negated(fields)
  {
  }

  // ------------------------------------------------------ a refused expansion

  lemma AllowAnyoneParses(syntax: Syntax, actions: seq<string>, resources: seq<string>, action: Json, resource: Json)
    requires StringOrArray(action) == Some(actions) && StringOrArray(resource) == Some(resources)
    requires CheckApplicability(syntax, actions, resources).Ok?
    ensures ParsePolicy(syntax, OneStatement(AllowAnyone(action, resource))).Ok?
    ensures ParsePolicy(syntax, OneStatement(AllowAnyone(action, resource))).value.statements ==
            [Statement(None, Allow, Principal(true, [], [], []), actions, resources, map[])]
  {
    var s := Statement(None, Allow, Principal(true, [], [], []), actions, resources, map[]);
    var fields := AllowAnyone(action, resource);
    AllowAnyoneReads(action, resource);
    ParseFieldsFrom(syntax, fields, s);
    var items := [Obj(fields)];
    assert ParseStatement(syntax, items[0]) == Ok(s);
    assert ParseEach(syntax, items).Ok? && ParseEach(syntax, items).value == [s];
    assert OneStatement(fields).fields["Statement"] == Arr(items);
    assert Field(OneStatement(fields).fields, "Version") == None;
  }

  lemma PairTexts(a: string, b: string)
    ensures StringOrArray(Arr([Str(a), Str(b)])) == Some([a, b])
  {
    var items := [Str(a), Str(b)];
    assert Map(TextOf, items)[0] == a && Map(TextOf, items)[1] == b;
    assert Map(TextOf, items) == [a, b];
  }

  lemma ScopesOfBucketAndObject()
    ensures BucketScope("arn:aws:s3:::b") && !ObjectScope("arn:aws:s3:::b") && ObjectScope("arn:aws:s3:::b/k")
  {
    assert "arn:aws:s3:::b"[|"arn:aws:s3:::"|..] == "b";
    assert "arn:aws:s3:::b/k"[|"arn:aws:s3:::"|..] == "b/k" && "b/k"[1] == '/';
  }

  lemma PairApplies(syntax: Syntax, get: string, list: string, bucket: string, item: string)
    requires syntax.isObjectAction(get) && !syntax.isBucketAction(get)
    requires syntax.isBucketAction(list) && !syntax.isObjectAction(list)
    requires BucketScope(bucket) && !ObjectScope(bucket) && ObjectScope(item)
    ensures CheckApplicability(syntax, [get, list], [bucket, item]).Ok?
    ensures CheckApplicability(syntax, [get], [bucket]).Err?
  {
    var resources := [bucket, item];
    assert BucketScope(resources[0]) && ObjectScope(resources[1]);
    assert !SomeObject([bucket]);
    assert !Applies(syntax, [get][0], [bucket]);
  }

  /**
    An everyday statement on a bucket and its objects, with an action for
    each: accepted as it stands, but its expansion is refused, since an action
    on objects does not apply to a bucket alone.
    */
  lemma ExpansionCanBeRefused(syntax: Syntax)
    requires syntax.isObjectAction("s3:GetObject") && !syntax.isBucketAction("s3:GetObject")
    requires syntax.isBucketAction("s3:ListBucket") && !syntax.isObjectAction("s3:ListBucket")
    ensures var j := OneStatement(AllowAnyone(Arr([Str("s3:GetObject"), Str("s3:ListBucket")]),
                                              Arr([Str("arn:aws:s3:::b"), Str("arn:aws:s3:::b/k")])));
            ParsePolicy(syntax, j).Ok? && ParsePolicy(syntax, ExpandPolicy(j)).Err?
  {
    ScopesOfBucketAndObject();
    PairIsNotSeparable(syntax, "s3:GetObject", "s3:ListBucket", "arn:aws:s3:::b", "arn:aws:s3:::b/k");
  }

  lemma PairIsNotSeparable(syntax: Syntax, get: string, list: string, bucket: string, item: string)
    requires syntax.isObjectAction(get) && !syntax.isBucketAction(get)
    requires syntax.isBucketAction(list) && !syntax.isObjectAction(list)
    requires BucketScope(bucket) && !ObjectScope(bucket) && ObjectScope(item)
    ensures var j := OneStatement(AllowAnyone(Arr([Str(get), Str(list)]), Arr([Str(bucket), Str(item)])));
            ParsePolicy(syntax, j).Ok? && ParsePolicy(syntax, ExpandPolicy(j)).Err?
  {
    var action, resource := Arr([Str(get), Str(list)]), Arr([Str(bucket), Str(item)]);
    PairTexts(get, list);
    PairTexts(bucket, item);
    PairApplies(syntax, get, list, bucket, item);
    AllowAnyoneParses(syntax, [get, list], [bucket, item], action, resource);
    var j := OneStatement(AllowAnyone(action, resource));
    var statements := ParsePolicy(syntax, j).value.statements;
    assert get in statements[0].actions && bucket in statements[0].resources;
    assert !Separable(syntax, statements[0]);
    ExpandAccepted(syntax, j);
  }

  // ----------------------------------------------------------- nested arrays

  lemma OneStatementMeans(request: Request, fields: Fields)
    ensures Meaning(request, OneStatement(fields)) == Says(request, false, Obj(fields))
  {
    var items := [Obj(fields)];
    assert Field(OneStatement(fields).fields, "Version") == None;
    assert Field(OneStatement(fields).fields, "Statement") == Some(Arr(items));
    forall d: Decision | d != NoMatch
      ensures d in Decisions(request, false, ReadEach(items)) <==> Says(request, false, Obj(fields)) == d
    {
      ReadEachDecides(request, false, items, d);
      assert items[0] in items;
    }
  }

  lemma AllowAnyoneSays(request: Request, action: Json, resource: Json)
    ensures Says(request, false, Obj(AllowAnyone(action, resource))) ==
            if SomeMatch(request.actionMatches, ReadTexts(Some(action)))
               && ResourceMatches(request, false, ReadTexts(Some(resource)))
            then ExplicitAllow else NoMatch
  {
    AllowAnyoneReads(action, resource);
    var s := Statement(None, Allow, Principal(true, [], [], []), ReadTexts(Some(action)), ReadTexts(Some(resource)), map[]);
    assert ReadStatement(Obj(AllowAnyone(action, resource))) == Some(s);
    NoConditions(request);
  }

  lemma NoConditions(request: Request)
    ensures ConditionsResult(request, false, map[]) == Matches
  {
  }

  lemma NestedExpands(inner: Json, resource: string)
    ensures ExpandPolicy(OneStatement(AllowAnyone(Arr([inner]), Str(resource)))) ==
            OneStatement(AllowAnyone(inner, Str(resource)))
  {
    var fields, plain := AllowAnyone(Arr([inner]), Str(resource)), AllowAnyone(inner, Str(resource));
    AllowAnyoneReads(Arr([inner]), Str(resource));
    FallbacksUnreachable(fields);
    SingleCombination(fields, Str("*"), inner, Str(resource));
    assert Replace(fields, Str("*"), inner, Str(resource)).fields == plain;
    assert ExpandStatement(Obj(fields)) == [Obj(plain)];
    OneExpands(fields, plain);
  }

  lemma OneExpands(fields: Fields, plain: Fields)
    requires ExpandStatement(Obj(fields)) == [Obj(plain)]
    ensures ExpandPolicy(OneStatement(fields)) == OneStatement(plain)
  {
    var items, j := [Obj(fields)], OneStatement(fields);
    var parts := Map(ExpandStatement, items);
    assert |parts| == 1 && parts[0] == [Obj(plain)];
    FlattenOne(parts);
    assert j.fields["Statement"] == Arr(items);
    assert ExpandPolicy(j).fields == map["Statement" := Arr([Obj(plain)])];
  }

  lemma FlattenOne<A>(parts: seq<seq<A>>)
    requires |parts| == 1
    ensures Flatten(parts) == parts[0]
  {
    assert Flatten(parts[1..]) == [];
  }

  lemma TextsOfOne(j: Json)
    ensures Texts([j]) == if j.Str? then [j.s] else []
  {
    assert [j][1..] == [];
  }

  /**
    Nesting is a real limit: a string two arrays deep is not read as an
    action, but expansion brings it to the surface.
    */
  lemma NestedArraysChangeMeaning(request: Request)
    requires request.actionMatches("a") && request.resourceMatches(false, "r")
    ensures var j := OneStatement(AllowAnyone(Arr([Arr([Str("a")])]), Str("r")));
            Meaning(request, j) == NoMatch && Meaning(request, ExpandPolicy(j)) == ExplicitAllow
  {
    var inner := Arr([Str("a")]);
    TextsOfOne(inner);
    TextsOfOne(Str("a"));
    TextsOfOne(Str("r"));
    assert ReadTexts(Some(Arr([inner]))) == [] && ReadTexts(Some(inner)) == ["a"] && ReadTexts(Some(Str("r"))) == ["r"];
    assert ["a"][0] == "a" && ["r"][0] == "r";
    AllowAnyoneSays(request, Arr([inner]), Str("r"));
    AllowAnyoneSays(request, inner, Str("r"));
    OneStatementMeans(request, AllowAnyone(Arr([inner]), Str("r")));
    OneStatementMeans(request, AllowAnyone(inner, Str("r")));
    NestedExpands(inner, "r");
  }
}
