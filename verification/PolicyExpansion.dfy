/**
  How the rewritings meet the parser: wrapping is invisible to it, and which
  expansions it accepts.
  */
module PolicyExpansion {
  import opened Common
  import opened Sequences
  import opened BucketPolicy
  import opened PolicyRewrite

  // --------------------------------------------------- wrapping singletons

  lemma WrapFieldReads(fields: Fields, name: string, other: string)
    ensures Field(WrapField(fields, name), other) ==
            if other == name && name in fields && fields[name].Str? then Some(Arr([fields[name]]))
            else Field(fields, other)
  {
  }

  /** A wrapped field reads as the same strings. */
  lemma WrapFieldStrings(fields: Fields, name: string, other: string)
    ensures PrincipalValues(WrapField(fields, name), other) == PrincipalValues(fields, other)
    ensures Required(Field(WrapField(fields, name), other)) == Required(Field(fields, other))
  {
    if other == name && name in fields && fields[name].Str? {
      assert Map(TextOf, [fields[name]]) == [fields[name].s];
    }
  }

  lemma WrapFieldKeys(fields: Fields, name: string)
    ensures WrapField(fields, name).Keys == fields.Keys
  {
  }

  lemma WrapPrincipalParses(syntax: Syntax, fields: Fields)
    ensures ParsePrincipal(syntax, Obj(WrapPrincipal(fields))) == ParsePrincipal(syntax, Obj(fields))
  {
    var one := WrapField(fields, "AWS");
    var two := WrapField(one, "Service");
    var all := WrapField(two, "CanonicalUser");
    forall kind
      ensures PrincipalValues(all, kind) == PrincipalValues(fields, kind)
    {
      WrapFieldStrings(fields, "AWS", kind);
      WrapFieldStrings(one, "Service", kind);
      WrapFieldStrings(two, "CanonicalUser", kind);
    }
    assert all.Keys == fields.Keys by {
      WrapFieldKeys(fields, "AWS");
      WrapFieldKeys(one, "Service");
      WrapFieldKeys(two, "CanonicalUser");
    }
    assert all == map[] <==> fields == map[] by {
      assert all.Keys == {} <==> fields.Keys == {};
    }
    assert KnownKinds(all) <==> KnownKinds(fields) by {
      assert forall kind :: kind in all <==> kind in fields;
    }
  }

  /** Fields other than the three rewritten ones are untouched. */
  ghost predicate SameOutside(fields: Fields, fields': Fields) {
    forall name :: name != "Principal" && name != "Action" && name != "Resource" ==>
      Field(fields', name) == Field(fields, name)
  }

  /** A statement is determined by what its fields read as. */
  lemma ParseFieldsByReading(syntax: Syntax, fields: Fields, fields': Fields)
    requires SameOutside(fields, fields')
    requires RequiredPrincipal(syntax, Field(fields', "Principal")) == RequiredPrincipal(syntax, Field(fields, "Principal"))
    requires Required(Field(fields', "Action")) == Required(Field(fields, "Action"))
    requires Required(Field(fields', "Resource")) == Required(Field(fields, "Resource"))
    ensures ParseFields(syntax, fields') == ParseFields(syntax, fields)
  {
    assert Field(fields', "NotPrincipal") == Field(fields, "NotPrincipal");
    assert Field(fields', "NotAction") == Field(fields, "NotAction");
    assert Field(fields', "NotResource") == Field(fields, "NotResource");
    assert Field(fields', "Sid") == Field(fields, "Sid");
    assert Field(fields', "Effect") == Field(fields, "Effect");
    assert Field(fields', "Condition") == Field(fields, "Condition");
  }

  lemma WrapFieldsReads(fields: Fields, name: string)
    ensures name != "Principal" ==>
              Required(Field(WrapFields(fields), name)) == Required(Field(fields, name))
    ensures name != "Principal" && name != "Action" && name != "Resource" ==>
              Field(WrapFields(fields), name) == Field(fields, name)
    ensures Field(WrapFields(fields), "Principal") ==
            match Field(fields, "Principal")
            case Some(Obj(principal)) => Some(Obj(WrapPrincipal(principal)))
            case other => other
  {
    WrapFieldReads(fields, "Action", name);
    WrapFieldReads(WrapField(fields, "Action"), "Resource", name);
    WrapFieldStrings(fields, "Action", name);
    WrapFieldStrings(WrapField(fields, "Action"), "Resource", name);
    WrapFieldReads(fields, "Action", "Principal");
    WrapFieldReads(WrapField(fields, "Action"), "Resource", "Principal");
  }

  lemma WrapStatementParses(syntax: Syntax, j: Json)
    ensures ParseStatement(syntax, WrapStatement(j)) == ParseStatement(syntax, j)
  {
    if j.Obj? {
      var fields := j.fields;
      forall name | name != "Principal" && name != "Action" && name != "Resource"
        ensures Field(WrapFields(fields), name) == Field(fields, name)
      {
        WrapFieldsReads(fields, name);
      }
      WrapFieldsReads(fields, "Action");
      WrapFieldsReads(fields, "Resource");
      if "Principal" in fields && fields["Principal"].Obj? {
        WrapPrincipalParses(syntax, fields["Principal"].fields);
      }
      ParseFieldsByReading(syntax, fields, WrapFields(fields));
    }
  }

  lemma {:induction false} WrapEachParses(syntax: Syntax, items: seq<Json>)
    ensures ParseEach(syntax, Map(WrapStatement, items)) == ParseEach(syntax, items)
  {
    if items != [] {
      WrapStatementParses(syntax, items[0]);
      WrapEachParses(syntax, items[1..]);
      assert Map(WrapStatement, items)[1..] == Map(WrapStatement, items[1..]);
    }
  }

  /**
    Wrapping singletons is invisible to the parser: every document, accepted
    or not, parses to the same policy or fails with the same error.
    */
  lemma ForceArraysParses(syntax: Syntax, j: Json)
    ensures ParsePolicy(syntax, ForceArrays(j)) == ParsePolicy(syntax, j)
  {
    if j.Obj? && "Statement" in j.fields && j.fields["Statement"].Arr? {
      WrapEachParses(syntax, j.fields["Statement"].items);
      assert Field(ForceArrays(j).fields, "Version") == Field(j.fields, "Version");
    }
  }

  // ---------------------------------------------------- members of products

  lemma RowMembers(fields: Fields, principal: Json, action: Json, resources: seq<Json>, x: Json)
    ensures x in OverResources(fields, principal, action, resources) <==>
            exists r :: r in resources && x == Replace(fields, principal, action, r)
  {
    var row := OverResources(fields, principal, action, resources);
    if x in row {
      var i :| 0 <= i < |row| && row[i] == x;
      assert resources[i] in resources;
    }
    forall r | r in resources && x == Replace(fields, principal, action, r)
      ensures x in row
    {
      var i :| 0 <= i < |resources| && resources[i] == r;
      assert row[i] == x;
    }
  }

  lemma {:induction false} OverActionsMembers(
    fields: Fields, principal: Json, actions: seq<Json>, resources: seq<Json>, x: Json)
    ensures x in OverActions(fields, principal, actions, resources) <==>
            exists a, r :: a in actions && r in resources && x == Replace(fields, principal, a, r)
  {
    if actions != [] {
      var n := |actions| - 1;
      OverActionsMembers(fields, principal, actions[..n], resources, x);
      RowMembers(fields, principal, actions[n], resources, x);
      assert actions[n] in actions;
      assert forall a :: a in actions <==> a in actions[..n] || a == actions[n];
    }
  }

  ghost predicate Combines(fields: Fields, p: Json, actions: seq<Json>, resources: seq<Json>, x: Json) {
    exists a, r :: a in actions && r in resources && x == Replace(fields, p, a, r)
  }

  lemma {:induction false} OverPrincipalsByOne(
    fields: Fields, principals: seq<Json>, actions: seq<Json>, resources: seq<Json>, x: Json)
    ensures x in OverPrincipals(fields, principals, actions, resources) <==>
            exists p :: p in principals && Combines(fields, p, actions, resources, x)
  {
    if principals != [] {
      var n := |principals| - 1;
      OverPrincipalsByOne(fields, principals[..n], actions, resources, x);
      OverActionsMembers(fields, principals[n], actions, resources, x);
      assert x in OverActions(fields, principals[n], actions, resources) <==>
             Combines(fields, principals[n], actions, resources, x);
      assert forall p :: p in principals <==> p in principals[..n] || p == principals[n];
    }
  }

  /** The expansion holds exactly the combinations of the variants. */
  lemma OverPrincipalsMembers(
    fields: Fields, principals: seq<Json>, actions: seq<Json>, resources: seq<Json>, x: Json)
    ensures x in OverPrincipals(fields, principals, actions, resources) <==>
            exists p, a, r :: p in principals && a in actions && r in resources && x == Replace(fields, p, a, r)
  {
    OverPrincipalsByOne(fields, principals, actions, resources, x);
  }

  // ------------------------------------------------------ principal choices

  lemma SpreadMembers(variant: Fields, name: string, entries: seq<Json>, v: Fields)
    ensures v in Spread(variant, name, entries) <==> exists e :: e in entries && v == variant[name := e]
  {
    var row := Spread(variant, name, entries);
    if v in row {
      var i :| 0 <= i < |row| && row[i] == v;
      assert entries[i] in entries;
    }
    forall e | e in entries && v == variant[name := e]
      ensures v in row
    {
      var i :| 0 <= i < |entries| && entries[i] == e;
      assert row[i] == v;
    }
  }

  lemma {:induction false} SpreadAllMembers(variants: seq<Fields>, name: string, entries: seq<Json>, v: Fields)
    ensures v in SpreadAll(variants, name, entries) <==>
            exists u, e :: u in variants && e in entries && v == u[name := e]
  {
    if variants != [] {
      var n := |variants| - 1;
      SpreadAllMembers(variants[..n], name, entries, v);
      SpreadMembers(variants[n], name, entries, v);
      assert variants[n] in variants;
      assert forall u :: u in variants <==> u in variants[..n] || u == variants[n];
    }
  }

  ghost predicate KindBefore(name: string, n: nat)
    requires n <= |PRINCIPAL_KINDS|
  {
    exists k :: 0 <= k < n && PRINCIPAL_KINDS[k] == name
  }

  /** One entry for every present kind among the first `n`. */
  ghost predicate IsChoice(principal: Fields, n: nat, v: Fields)
    requires n <= |PRINCIPAL_KINDS|
  {
    && (forall name :: name in v <==> name in principal && KindBefore(name, n))
    && (forall name :: name in v ==> v[name] in Entries(principal[name]))
  }

  lemma KindStep(name: string, n: nat)
    requires 0 < n <= |PRINCIPAL_KINDS|
    ensures KindBefore(name, n) <==> KindBefore(name, n - 1) || name == PRINCIPAL_KINDS[n - 1]
    ensures !KindBefore(PRINCIPAL_KINDS[n - 1], n - 1)
  {
    if KindBefore(name, n - 1) {
      var k :| 0 <= k < n - 1 && PRINCIPAL_KINDS[k] == name;
      assert 0 <= k < n && PRINCIPAL_KINDS[k] == name;
    }
    assert PRINCIPAL_KINDS[0] == "AWS" && PRINCIPAL_KINDS[1] == "Service" && PRINCIPAL_KINDS[2] == "CanonicalUser";
  }

  lemma ChoiceExtends(principal: Fields, n: nat, u: Fields, e: Json)
    requires 0 < n <= |PRINCIPAL_KINDS| && IsChoice(principal, n - 1, u)
    requires PRINCIPAL_KINDS[n - 1] in principal && e in Entries(principal[PRINCIPAL_KINDS[n - 1]])
    ensures IsChoice(principal, n, u[PRINCIPAL_KINDS[n - 1] := e])
  {
    forall name
      ensures KindBefore(name, n) <==> KindBefore(name, n - 1) || name == PRINCIPAL_KINDS[n - 1]
    {
      KindStep(name, n);
    }
  }

  lemma ChoiceRestricts(principal: Fields, n: nat, v: Fields)
    requires 0 < n <= |PRINCIPAL_KINDS| && IsChoice(principal, n, v)
    ensures IsChoice(principal, n - 1, v - {PRINCIPAL_KINDS[n - 1]})
    ensures PRINCIPAL_KINDS[n - 1] in v <==> PRINCIPAL_KINDS[n - 1] in principal
  {
    forall name
      ensures KindBefore(name, n) <==> KindBefore(name, n - 1) || name == PRINCIPAL_KINDS[n - 1]
    {
      KindStep(name, n);
    }
    KindStep("", n);
  }

  lemma {:induction false} ProductToChoice(principal: Fields, n: nat, v: Fields)
    requires n <= |PRINCIPAL_KINDS| && v in Product(principal, n)
    ensures IsChoice(principal, n, v)
    decreases n
  {
    if n > 0 {
      var kind := PRINCIPAL_KINDS[n - 1];
      if kind in principal {
        SpreadAllMembers(Product(principal, n - 1), kind, Entries(principal[kind]), v);
        var u, e :| u in Product(principal, n - 1) && e in Entries(principal[kind]) && v == u[kind := e];
        ProductToChoice(principal, n - 1, u);
        ChoiceExtends(principal, n, u, e);
      } else {
        ProductToChoice(principal, n - 1, v);
        AbsentKind(principal, n, v);
      }
    }
  }

  lemma PutBack(variants: seq<Fields>, kind: string, entries: seq<Json>, v: Fields)
    requires kind in v && v - {kind} in variants && v[kind] in entries
    ensures v in SpreadAll(variants, kind, entries)
  {
    var u := v - {kind};
    assert v == u[kind := v[kind]];
    SpreadAllMembers(variants, kind, entries, v);
  }

  lemma {:induction false} ChoiceToProduct(principal: Fields, n: nat, v: Fields)
    requires n <= |PRINCIPAL_KINDS| && IsChoice(principal, n, v)
    ensures v in Product(principal, n)
    decreases n
  {
    if n == 0 {
      assert v == map[];
    } else {
      var kind := PRINCIPAL_KINDS[n - 1];
      if kind in principal {
        ChoiceRestricts(principal, n, v);
        ChoiceToProduct(principal, n - 1, v - {kind});
        PutBack(Product(principal, n - 1), kind, Entries(principal[kind]), v);
      } else {
        AbsentKind(principal, n, v);
        ChoiceToProduct(principal, n - 1, v);
      }
    }
  }

  /** The product holds exactly the choices. */
  lemma ProductMembers(principal: Fields, n: nat, v: Fields)
    requires n <= |PRINCIPAL_KINDS|
    ensures v in Product(principal, n) <==> IsChoice(principal, n, v)
  {
    if v in Product(principal, n) {
      ProductToChoice(principal, n, v);
    }
    if IsChoice(principal, n, v) {
      ChoiceToProduct(principal, n, v);
    }
  }

  lemma AbsentKind(principal: Fields, n: nat, v: Fields)
    requires 0 < n <= |PRINCIPAL_KINDS| && PRINCIPAL_KINDS[n - 1] !in principal
    ensures IsChoice(principal, n - 1, v) <==> IsChoice(principal, n, v)
  {
    forall name
      ensures KindBefore(name, n) <==> KindBefore(name, n - 1) || name == PRINCIPAL_KINDS[n - 1]
    {
      KindStep(name, n);
    }
  }

  // -------------------------------------------------- parsing of principals

  /** Every kind is known and offers at least one entry, all of them strings. */
  ghost predicate FlatPrincipal(fields: Fields) {
    && KnownKinds(fields)
    && fields != map[]
    && (forall kind :: kind in fields ==> StringOrArray(fields[kind]).Some?)
  }

  lemma StringsOfEntries(j: Json, x: string)
    requires StringOrArray(j).Some?
    ensures Entries(j) != [] && AllStrings(Entries(j))
    ensures x in StringOrArray(j).value <==> exists e :: e in Entries(j) && TextOf(e) == x
  {
    var entries := Entries(j);
    assert StringOrArray(j).value == Map(TextOf, entries);
    if x in Map(TextOf, entries) {
      var i :| 0 <= i < |entries| && Map(TextOf, entries)[i] == x;
      assert entries[i] in entries;
    }
    forall e | e in entries && TextOf(e) == x
      ensures x in Map(TextOf, entries)
    {
      var i :| 0 <= i < |entries| && entries[i] == e;
      assert Map(TextOf, entries)[i] == x;
    }
  }

  lemma ParsedPrincipalIsFlat(syntax: Syntax, fields: Fields)
    requires ParsePrincipal(syntax, Obj(fields)).Some?
    ensures FlatPrincipal(fields)
  {
    forall kind | kind in fields
      ensures StringOrArray(fields[kind]).Some?
    {
      assert PrincipalValues(fields, kind).Some?;
    }
  }

  lemma KnownKindBefore(name: string)
    requires name == "AWS" || name == "Service" || name == "CanonicalUser"
    ensures KindBefore(name, |PRINCIPAL_KINDS|)
  {
    assert PRINCIPAL_KINDS[0] == "AWS" && PRINCIPAL_KINDS[1] == "Service" && PRINCIPAL_KINDS[2] == "CanonicalUser";
  }

  /** A choice from a flat principal has the same kinds, each with one string. */
  lemma ChoiceShape(fields: Fields, v: Fields, kind: string)
    requires FlatPrincipal(fields) && IsChoice(fields, |PRINCIPAL_KINDS|, v)
    ensures kind in v <==> kind in fields
    ensures kind in v ==> v[kind].Str? && v[kind] in Entries(fields[kind])
    ensures kind in v ==> PrincipalValues(v, kind) == Some([TextOf(v[kind])])
  {
    if kind in fields {
      KnownKindBefore(kind);
      StringsOfEntries(fields[kind], "");
      var i :| 0 <= i < |Entries(fields[kind])| && Entries(fields[kind])[i] == v[kind];
    }
  }

  lemma ChoiceParses(syntax: Syntax, fields: Fields, v: Fields)
    requires ParsePrincipal(syntax, Obj(fields)).Some? && IsChoice(fields, |PRINCIPAL_KINDS|, v)
    ensures ParsePrincipal(syntax, Obj(v)).Some?
  {
    ParsedPrincipalIsFlat(syntax, fields);
    forall kind
      ensures kind in v <==> kind in fields
    {
      ChoiceShape(fields, v, kind);
    }
    ChoiceShape(fields, v, "AWS");
    ChoiceShape(fields, v, "Service");
    ChoiceShape(fields, v, "CanonicalUser");
    assert v.Keys == fields.Keys;
    if "AWS" in v {
      var x := TextOf(v["AWS"]);
      StringsOfEntries(fields["AWS"], x);
      var aws := PrincipalValues(fields, "AWS").value;
      assert x in aws;
      if x != "*" {
        assert x in NotWildcard(aws);
      }
      assert NotWildcard([x]) == if x == "*" then [] else [x];
    }
  }

  lemma FlatHasNoEmptyKind(fields: Fields)
    requires FlatPrincipal(fields)
    ensures !HasEmptyKind(fields, |PRINCIPAL_KINDS|)
  {
  }

  lemma MapObjectMembers(variants: seq<Fields>, p: Json)
    ensures p in Map(AsObject, variants) <==> p.Obj? && p.fields in variants
  {
    if p in Map(AsObject, variants) {
      var i :| 0 <= i < |variants| && Map(AsObject, variants)[i] == p;
    }
    if p.Obj? && p.fields in variants {
      var i :| 0 <= i < |variants| && variants[i] == p.fields;
      assert Map(AsObject, variants)[i] == p;
    }
  }

  /** Every variant of an accepted principal is accepted. */
  lemma PrincipalVariantsParse(syntax: Syntax, j: Json, p: Json)
    requires ParsePrincipal(syntax, j).Some? && p in PrincipalVariants(Some(j))
    ensures ParsePrincipal(syntax, p).Some?
  {
    if j.Obj? {
      ParsedPrincipalIsFlat(syntax, j.fields);
      FlatHasNoEmptyKind(j.fields);
      var product := Product(j.fields, |PRINCIPAL_KINDS|);
      if product != [] {
        MapObjectMembers(product, p);
        ProductMembers(j.fields, |PRINCIPAL_KINDS|, p.fields);
        ChoiceParses(syntax, j.fields, p.fields);
      }
    }
  }

  // --------------------------------------------------- parsing of statements

  /** The variants of a parsed string list are its strings, in order. */
  lemma StringVariants(value: Option<Json>)
    requires Required(value).Some?
    ensures var texts := Required(value).value;
            && |ValueVariants(value)| == |texts|
            && forall i :: 0 <= i < |texts| ==> ValueVariants(value)[i] == Str(texts[i])
  {
  }

  /** What one combination of the expansion parses to. */
  lemma ReplacedParses(syntax: Syntax, fields: Fields, principal: Json, action: string, resource: string)
    requires ParseFields(syntax, fields).Ok? && ParsePrincipal(syntax, principal).Some?
    ensures ParseStatement(syntax, Replace(fields, principal, Str(action), Str(resource))) ==
            match CheckApplicability(syntax, [action], [resource])
            case Err(e) => Err(e)
            case Ok(_) =>
              Ok(ParseFields(syntax, fields).value.(principal := ParsePrincipal(syntax, principal).value,
                                                    actions := [action], resources := [resource]))
  {
    var next := Replace(fields, principal, Str(action), Str(resource)).fields;
    ReplaceReads(fields, principal, Str(action), Str(resource));
    ParsedFieldsRead(syntax, fields);
    var s := ParseFields(syntax, fields).value;
    var single := s.(principal := ParsePrincipal(syntax, principal).value, actions := [action], resources := [resource]);
    ParseFieldsFrom(syntax, next, single);
  }

  /** Replacement sets three fields and touches no other. */
  lemma ReplaceReads(fields: Fields, p: Json, a: Json, r: Json)
    ensures var x := Replace(fields, p, a, r).fields;
            && Field(x, "Principal") == Some(p) && Field(x, "Action") == Some(a) && Field(x, "Resource") == Some(r)
            && Field(x, "Sid") == Field(fields, "Sid") && Field(x, "Effect") == Field(fields, "Effect")
            && Field(x, "Condition") == Field(fields, "Condition") && Negated(x) == Negated(fields)
  {
  }

  /** Every single action applies to every single resource of the statement. */
  ghost predicate Separable(syntax: Syntax, s: Statement) {
    forall a, r :: a in s.actions && r in s.resources ==> CheckApplicability(syntax, [a], [r]).Ok?
  }

  /** The members of a statement's expansion, in terms of what it parsed to. */
  lemma ExpansionMembers(syntax: Syntax, fields: Fields, x: Json)
    requires ParseFields(syntax, fields).Ok?
    ensures var s := ParseFields(syntax, fields).value;
            x in ExpandFields(fields) <==>
            exists p, a, r :: p in PrincipalVariants(Field(fields, "Principal")) && a in s.actions && r in s.resources
                              && x == Replace(fields, p, Str(a), Str(r))
  {
    var s := ParseFields(syntax, fields).value;
    var principals := PrincipalVariants(Field(fields, "Principal"));
    var actions, resources := ValueVariants(Field(fields, "Action")), ValueVariants(Field(fields, "Resource"));
    StringVariants(Field(fields, "Action"));
    StringVariants(Field(fields, "Resource"));
    OverPrincipalsMembers(fields, principals, actions, resources, x);
    StrMembers(s.actions, actions);
    StrMembers(s.resources, resources);
    CombinationTexts(fields, principals, s.actions, s.resources, actions, resources, x);
  }

  lemma CombinationTexts(
    fields: Fields, principals: seq<Json>, texts: seq<string>, texts': seq<string>,
    actions: seq<Json>, resources: seq<Json>, x: Json)
    requires forall j :: j in actions <==> j.Str? && j.s in texts
    requires forall j :: j in resources <==> j.Str? && j.s in texts'
    ensures (exists p, a, r :: p in principals && a in actions && r in resources && x == Replace(fields, p, a, r)) <==>
            exists p, a, r :: p in principals && a in texts && r in texts' && x == Replace(fields, p, Str(a), Str(r))
  {
    forall p, a, r | p in principals && a in actions && r in resources && x == Replace(fields, p, a, r)
      ensures exists p, a, r :: p in principals && a in texts && r in texts' && x == Replace(fields, p, Str(a), Str(r))
    {
      assert x == Replace(fields, p, Str(a.s), Str(r.s)) && a.s in texts && r.s in texts';
    }
    forall p, a, r | p in principals && a in texts && r in texts' && x == Replace(fields, p, Str(a), Str(r))
      ensures exists p, a, r :: p in principals && a in actions && r in resources && x == Replace(fields, p, a, r)
    {
      assert Str(a) in actions && Str(r) in resources;
    }
  }

  lemma StrMembers(texts: seq<string>, variants: seq<Json>)
    requires |variants| == |texts| && forall i :: 0 <= i < |texts| ==> variants[i] == Str(texts[i])
    ensures forall j :: j in variants <==> j.Str? && j.s in texts
  {
    forall j | j in variants
      ensures j.Str? && j.s in texts
    {
      var i :| 0 <= i < |variants| && variants[i] == j;
    }
    forall j: Json | j.Str? && j.s in texts
      ensures j in variants
    {
      var i :| 0 <= i < |texts| && texts[i] == j.s;
      assert variants[i] == j;
    }
  }

  lemma ExpansionNonEmpty(fields: Fields)
    requires PrincipalVariants(Field(fields, "Principal")) != []
    ensures ExpandFields(fields) != []
  {
    var p := PrincipalVariants(Field(fields, "Principal"))[0];
    var a, r := ValueVariants(Field(fields, "Action"))[0], ValueVariants(Field(fields, "Resource"))[0];
    OverPrincipalsMembers(fields, PrincipalVariants(Field(fields, "Principal")),
                          ValueVariants(Field(fields, "Action")), ValueVariants(Field(fields, "Resource")),
                          Replace(fields, p, a, r));
    assert Replace(fields, p, a, r) in ExpandFields(fields);
  }

  lemma ParsedFieldsPrincipal(syntax: Syntax, fields: Fields)
    requires ParseFields(syntax, fields).Ok?
    ensures "Principal" in fields
    ensures ParsePrincipal(syntax, fields["Principal"]) == Some(ParseFields(syntax, fields).value.principal)
  {
  }

  lemma SeparableExpansionParses(syntax: Syntax, fields: Fields, x: Json)
    requires ParseFields(syntax, fields).Ok? && Separable(syntax, ParseFields(syntax, fields).value)
    requires x in ExpandFields(fields)
    ensures ParseStatement(syntax, x).Ok?
  {
    var s := ParseFields(syntax, fields).value;
    ParsedFieldsPrincipal(syntax, fields);
    ExpansionMembers(syntax, fields, x);
    var p, a, r :| p in PrincipalVariants(Field(fields, "Principal")) && a in s.actions && r in s.resources
                   && x == Replace(fields, p, Str(a), Str(r));
    PrincipalVariantsParse(syntax, fields["Principal"], p);
    ReplacedParses(syntax, fields, p, a, r);
  }

  lemma ParsedExpansionSeparates(syntax: Syntax, fields: Fields, a: string, r: string)
    requires ParseFields(syntax, fields).Ok?
    requires forall x :: x in ExpandFields(fields) ==> ParseStatement(syntax, x).Ok?
    requires a in ParseFields(syntax, fields).value.actions && r in ParseFields(syntax, fields).value.resources
    ensures CheckApplicability(syntax, [a], [r]).Ok?
  {
    var s := ParseFields(syntax, fields).value;
    ParsedFieldsPrincipal(syntax, fields);
    PrincipalVariantsNonEmpty(Field(fields, "Principal"));
    var p := PrincipalVariants(Field(fields, "Principal"))[0];
    var x := Replace(fields, p, Str(a), Str(r));
    PrincipalVariantsParse(syntax, fields["Principal"], p);
    ExpansionMembers(syntax, fields, x);
    assert ParseStatement(syntax, x).Ok?;
    ReplacedParses(syntax, fields, p, a, r);
  }

  lemma PrincipalVariantsNonEmpty(value: Option<Json>)
    ensures PrincipalVariants(value) != []
  {
  }

  // ----------------------------------------------------- parsing of policies

  /** Neither emptiness fallback of the expansion is ever taken. */
  lemma FallbacksUnreachable(fields: Fields)
    ensures ExpandFields(fields) != []
    ensures ExpandStatement(Obj(fields)) == ExpandFields(fields)
    ensures "Principal" in fields && fields["Principal"].Obj? && !HasEmptyKind(fields["Principal"].fields, |PRINCIPAL_KINDS|) ==>
              Product(fields["Principal"].fields, |PRINCIPAL_KINDS|) != []
  {
    ExpansionNonEmpty(fields);
    if "Principal" in fields && fields["Principal"].Obj? && !HasEmptyKind(fields["Principal"].fields, |PRINCIPAL_KINDS|) {
      ProductNonEmpty(fields["Principal"].fields, |PRINCIPAL_KINDS|);
    }
  }

  lemma {:induction false} ProductNonEmpty(principal: Fields, n: nat)
    requires n <= |PRINCIPAL_KINDS| && !HasEmptyKind(principal, n)
    ensures Product(principal, n) != []
    decreases n
  {
    if n > 0 {
      assert !EmptyKind(principal, PRINCIPAL_KINDS[n - 1]);
      ProductNonEmpty(principal, n - 1);
      var kind := PRINCIPAL_KINDS[n - 1];
      if kind in principal {
        var u, e := Product(principal, n - 1)[0], Entries(principal[kind])[0];
        SpreadAllMembers(Product(principal, n - 1), kind, Entries(principal[kind]), u[kind := e]);
      }
    }
  }

  function ExpandedItems(items: seq<Json>): seq<Json> {
    Flatten(Map(ExpandStatement, items))
  }

  lemma ExpandedItemsMembers(items: seq<Json>, x: Json)
    ensures x in ExpandedItems(items) <==> exists i :: 0 <= i < |items| && x in ExpandStatement(items[i])
  {
    FlattenMembers(Map(ExpandStatement, items), x);
    if x in ExpandedItems(items) {
      var i :| 0 <= i < |items| && x in Map(ExpandStatement, items)[i];
      assert x in ExpandStatement(items[i]);
    }
    forall i | 0 <= i < |items| && x in ExpandStatement(items[i])
      ensures x in ExpandedItems(items)
    {
      assert x in Map(ExpandStatement, items)[i];
    }
  }

  ghost predicate AllParse(syntax: Syntax, items: seq<Json>) {
    forall x :: x in items ==> ParseStatement(syntax, x).Ok?
  }

  ghost predicate AllSeparable(syntax: Syntax, statements: seq<Statement>) {
    forall i :: 0 <= i < |statements| ==> Separable(syntax, statements[i])
  }

  /** The expansion of parsed statements parses exactly when all are separable. */
  lemma ExpandedItemsParse(syntax: Syntax, items: seq<Json>, statements: seq<Statement>)
    requires ParseEach(syntax, items) == Ok(statements)
    ensures AllParse(syntax, ExpandedItems(items)) <==> AllSeparable(syntax, statements)
  {
    if AllParse(syntax, ExpandedItems(items)) {
      forall i | 0 <= i < |items|
        ensures Separable(syntax, statements[i])
      {
        var fields := items[i].fields;
        FallbacksUnreachable(fields);
        forall x | x in ExpandFields(fields)
          ensures ParseStatement(syntax, x).Ok?
        {
          ExpandedItemsMembers(items, x);
        }
        forall a, r | a in statements[i].actions && r in statements[i].resources
          ensures CheckApplicability(syntax, [a], [r]).Ok?
        {
          ParsedExpansionSeparates(syntax, fields, a, r);
        }
      }
    }
    if AllSeparable(syntax, statements) {
      forall x | x in ExpandedItems(items)
        ensures ParseStatement(syntax, x).Ok?
      {
        ExpandedItemsMembers(items, x);
        var i :| 0 <= i < |items| && x in ExpandStatement(items[i]);
        assert ParseStatement(syntax, items[i]) == Ok(statements[i]);
        FallbacksUnreachable(items[i].fields);
        SeparableExpansionParses(syntax, items[i].fields, x);
      }
    }
  }

  ghost predicate ExpandsStatements(j: Json) {
    j.Obj? && "Statement" in j.fields && j.fields["Statement"].Arr?
  }

  lemma {:induction false} ExpandedItemsNonEmpty(items: seq<Json>)
    requires items != []
    ensures ExpandedItems(items) != []
  {
    if items[0].Obj? {
      FallbacksUnreachable(items[0].fields);
    }
    var x := ExpandStatement(items[0])[0];
    ExpandedItemsMembers(items, x);
  }

  /** When the expansion of an accepted policy is accepted. */
  lemma ExpandAccepted(syntax: Syntax, j: Json)
    requires ParsePolicy(syntax, j).Ok?
    ensures ParsePolicy(syntax, ExpandPolicy(j)).Ok? <==>
            (ExpandsStatements(j) ==> AllSeparable(syntax, ParsePolicy(syntax, j).value.statements))
  {
    if ExpandsStatements(j) {
      var items := j.fields["Statement"].items;
      ExpandedItemsParse(syntax, items, ParsePolicy(syntax, j).value.statements);
      ExpandedItemsNonEmpty(items);
      var expanded := ExpandedItems(items);
      assert AllParse(syntax, expanded) <==>
             forall i :: 0 <= i < |expanded| ==> ParseStatement(syntax, expanded[i]).Ok?;
      assert Field(ExpandPolicy(j).fields, "Version") == Field(j.fields, "Version");
    }
  }
}
