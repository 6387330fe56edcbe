/** Expansion as a normal form: how it meets wrapping, and when it is stable. */
module PolicyNormalForm {
  import opened Common
  import opened Sequences
  import opened BucketPolicy
  import opened PolicyRewrite
  import opened PolicyExpansion
  import opened PolicyMeaning

  // ------------------------------------------------------------------ size

  /** One expanded statement per combination of principal, action and resource. */
  lemma ExpansionSize(fields: Fields)
    ensures |ExpandStatement(Obj(fields))| ==
            |PrincipalVariants(Field(fields, "Principal"))|
            * (|ValueVariants(Field(fields, "Action"))| * |ValueVariants(Field(fields, "Resource"))|)
  {
    FallbacksUnreachable(fields);
  }

  // ----------------------------------------- expansion of wrapped documents

  lemma WrapPrincipalReads(principal: Fields, kind: string)
    ensures kind in WrapPrincipal(principal) <==> kind in principal
    ensures kind in principal ==>
              WrapPrincipal(principal)[kind] ==
              if principal[kind].Str? && (kind == "AWS" || kind == "Service" || kind == "CanonicalUser")
              then Arr([principal[kind]]) else principal[kind]
  {
    var one := WrapField(principal, "AWS");
    var two := WrapField(one, "Service");
    WrapFieldReads(principal, "AWS", kind);
    WrapFieldReads(one, "Service", kind);
    WrapFieldReads(two, "CanonicalUser", kind);
  }

  lemma {:induction false} WrapPrincipalProduct(principal: Fields, n: nat)
    requires n <= |PRINCIPAL_KINDS|
    ensures Product(WrapPrincipal(principal), n) == Product(principal, n)
    ensures HasEmptyKind(WrapPrincipal(principal), n) <==> HasEmptyKind(principal, n)
    decreases n
  {
    if n > 0 {
      var kind := PRINCIPAL_KINDS[n - 1];
      WrapPrincipalProduct(principal, n - 1);
      WrapPrincipalReads(principal, kind);
      assert HasEmptyKind(principal, n) <==> HasEmptyKind(principal, n - 1) || EmptyKind(principal, kind);
      assert HasEmptyKind(WrapPrincipal(principal), n) <==>
             HasEmptyKind(WrapPrincipal(principal), n - 1) || EmptyKind(WrapPrincipal(principal), kind);
    }
  }

  predicate StringKind(principal: Fields, kind: string) {
    kind in principal && principal[kind].Str?
  }

  /** A principal mixing an empty array with a bare string among its kinds. */
  predicate MixedPrincipal(principal: Fields) {
    && HasEmptyKind(principal, |PRINCIPAL_KINDS|)
    && (StringKind(principal, "AWS") || StringKind(principal, "Service") || StringKind(principal, "CanonicalUser"))
  }

  predicate Mixed(j: Json) {
    j.Obj? && "Principal" in j.fields && j.fields["Principal"].Obj? && MixedPrincipal(j.fields["Principal"].fields)
  }

  lemma WrapPrincipalIdentity(principal: Fields)
    ensures WrapPrincipal(principal) == principal <==>
            !(StringKind(principal, "AWS") || StringKind(principal, "Service") || StringKind(principal, "CanonicalUser"))
  {
    WrapPrincipalReads(principal, "AWS");
    WrapPrincipalReads(principal, "Service");
    WrapPrincipalReads(principal, "CanonicalUser");
    forall kind | kind != "AWS" && kind != "Service" && kind != "CanonicalUser"
      ensures kind in WrapPrincipal(principal) <==> kind in principal
      ensures kind in principal ==> WrapPrincipal(principal)[kind] == principal[kind]
    {
      WrapPrincipalReads(principal, kind);
    }
  }

  /** Wrapping keeps the number of principal variants, and the variants unless mixed. */
  lemma WrapPrincipalVariants(j: Json)
    requires j.Obj?
    ensures var wrapped := PrincipalVariants(Some(Obj(WrapPrincipal(j.fields))));
            && |wrapped| == |PrincipalVariants(Some(j))| > 0
            && (MixedPrincipal(j.fields) ==> wrapped[0] != PrincipalVariants(Some(j))[0])
            && (!MixedPrincipal(j.fields) ==> wrapped == PrincipalVariants(Some(j)))
  {
    WrapPrincipalProduct(j.fields, |PRINCIPAL_KINDS|);
    WrapPrincipalIdentity(j.fields);
    if !HasEmptyKind(j.fields, |PRINCIPAL_KINDS|) {
      ProductNonEmpty(j.fields, |PRINCIPAL_KINDS|);
    }
  }

  lemma WrapValueVariants(fields: Fields)
    ensures ValueVariants(Field(WrapFields(fields), "Action")) == ValueVariants(Field(fields, "Action"))
    ensures ValueVariants(Field(WrapFields(fields), "Resource")) == ValueVariants(Field(fields, "Resource"))
  {
    var one := WrapField(fields, "Action");
    WrapFieldReads(fields, "Action", "Action");
    WrapFieldReads(fields, "Action", "Resource");
    WrapFieldReads(one, "Resource", "Action");
    WrapFieldReads(one, "Resource", "Resource");
  }

  lemma ReplaceHidesWrapping(fields: Fields, p: Json, a: Json, r: Json)
    ensures Replace(WrapFields(fields), p, a, r) == Replace(fields, p, a, r)
  {
    var left, right := Replace(WrapFields(fields), p, a, r).fields, Replace(fields, p, a, r).fields;
    forall name
      ensures name in left <==> name in right
      ensures name in left && name in right ==> left[name] == right[name]
    {
      if name != "Principal" && name != "Action" && name != "Resource" {
        WrapFieldsReads(fields, name);
        assert Field(left, name) == Field(right, name);
      }
    }
    assert left == right;
  }

  lemma {:induction false} OverActionsHidesWrapping(fields: Fields, p: Json, actions: seq<Json>, resources: seq<Json>)
    ensures OverActions(WrapFields(fields), p, actions, resources) == OverActions(fields, p, actions, resources)
  {
    if actions != [] {
      var n := |actions| - 1;
      OverActionsHidesWrapping(fields, p, actions[..n], resources);
      forall i | 0 <= i < |resources|
        ensures Replace(WrapFields(fields), p, actions[n], resources[i]) == Replace(fields, p, actions[n], resources[i])
      {
        ReplaceHidesWrapping(fields, p, actions[n], resources[i]);
      }
      assert OverResources(WrapFields(fields), p, actions[n], resources) == OverResources(fields, p, actions[n], resources);
    }
  }

  lemma {:induction false} OverPrincipalsHidesWrapping(
    fields: Fields, principals: seq<Json>, actions: seq<Json>, resources: seq<Json>)
    ensures OverPrincipals(WrapFields(fields), principals, actions, resources)
         == OverPrincipals(fields, principals, actions, resources)
  {
    if principals != [] {
      var n := |principals| - 1;
      OverPrincipalsHidesWrapping(fields, principals[..n], actions, resources);
      OverActionsHidesWrapping(fields, principals[n], actions, resources);
    }
  }

  /** The first combination of an expansion. */
  lemma {:induction false} FirstAction(fields: Fields, p: Json, actions: seq<Json>, resources: seq<Json>)
    requires actions != [] && resources != []
    ensures OverActions(fields, p, actions, resources) != []
    ensures OverActions(fields, p, actions, resources)[0] == Replace(fields, p, actions[0], resources[0])
  {
    if |actions| > 1 {
      FirstAction(fields, p, actions[..|actions| - 1], resources);
    }
  }

  lemma {:induction false} FirstCombination(fields: Fields, principals: seq<Json>, actions: seq<Json>, resources: seq<Json>)
    requires principals != [] && actions != [] && resources != []
    ensures OverPrincipals(fields, principals, actions, resources) != []
    ensures OverPrincipals(fields, principals, actions, resources)[0]
         == Replace(fields, principals[0], actions[0], resources[0])
  {
    if |principals| > 1 {
      FirstCombination(fields, principals[..|principals| - 1], actions, resources);
    } else {
      FirstAction(fields, principals[0], actions, resources);
    }
  }

  /** Per statement: the same number of results, and the same results unless mixed. */
  lemma ExpandWrappedStatement(j: Json)
    ensures |ExpandStatement(WrapStatement(j))| == |ExpandStatement(j)|
    ensures ExpandStatement(WrapStatement(j)) == ExpandStatement(j) <==> !Mixed(j)
  {
    if j.Obj? {
      var fields, wrapped := j.fields, WrapFields(j.fields);
      FallbacksUnreachable(fields);
      FallbacksUnreachable(wrapped);
      WrapValueVariants(fields);
      WrapFieldsReads(fields, "Principal");
      var principals := PrincipalVariants(Field(fields, "Principal"));
      var principals' := PrincipalVariants(Field(wrapped, "Principal"));
      var actions, resources := ValueVariants(Field(fields, "Action")), ValueVariants(Field(fields, "Resource"));
      if "Principal" in fields && fields["Principal"].Obj? {
        WrapPrincipalVariants(fields["Principal"]);
      }
      OverPrincipalsHidesWrapping(fields, principals', actions, resources);
      if Mixed(j) {
        FirstCombination(fields, principals, actions, resources);
        FirstCombination(fields, principals', actions, resources);
        DifferentPrincipal(fields, principals[0], principals'[0], actions[0], resources[0]);
      }
    }
  }

  lemma DifferentPrincipal(fields: Fields, p: Json, p': Json, a: Json, r: Json)
    requires p != p'
    ensures Replace(fields, p, a, r) != Replace(fields, p', a, r)
  {
    assert Replace(fields, p, a, r).fields["Principal"] == p;
    assert Replace(fields, p', a, r).fields["Principal"] == p';
  }

  lemma {:induction false} FlattenCancels<A>(parts: seq<seq<A>>, parts': seq<seq<A>>)
    requires |parts| == |parts'|
    requires forall i :: 0 <= i < |parts| ==> |parts[i]| == |parts'[i]|
    ensures Flatten(parts) == Flatten(parts') <==> parts == parts'
  {
    if parts != [] {
      FlattenCancels(parts[1..], parts'[1..]);
      if Flatten(parts) == Flatten(parts') {
        assert parts[0] == Flatten(parts)[..|parts[0]|] && parts'[0] == Flatten(parts')[..|parts[0]|];
        assert Flatten(parts[1..]) == Flatten(parts)[|parts[0]|..];
        assert Flatten(parts'[1..]) == Flatten(parts')[|parts[0]|..];
        assert parts == [parts[0]] + parts[1..] && parts' == [parts'[0]] + parts'[1..];
      }
    }
  }

  lemma ExpandWrappedItems(items: seq<Json>)
    ensures ExpandedItems(Map(WrapStatement, items)) == ExpandedItems(items) <==>
            forall i :: 0 <= i < |items| ==> !Mixed(items[i])
  {
    var wrapped := Map(ExpandStatement, Map(WrapStatement, items));
    var plain := Map(ExpandStatement, items);
    forall i | 0 <= i < |items|
      ensures |wrapped[i]| == |plain[i]| && (wrapped[i] == plain[i] <==> !Mixed(items[i]))
    {
      ExpandWrappedStatement(items[i]);
    }
    FlattenCancels(wrapped, plain);
  }

  /** The policy has no statement whose principal mixes an empty array and a string. */
  ghost predicate NoMixedStatement(j: Json) {
    ExpandsStatements(j) ==> forall i :: 0 <= i < |j.fields["Statement"].items| ==> !Mixed(j.fields["Statement"].items[i])
  }

  /**
    Expanding a wrapped policy gives the expansion of the policy exactly when
    no principal mixes an empty array with a bare string.
    */
  lemma ExpandAfterForce(j: Json)
    ensures ExpandPolicy(ForceArrays(j)) == ExpandPolicy(j) <==> NoMixedStatement(j)
  {
    if ExpandsStatements(j) {
      var items := j.fields["Statement"].items;
      ExpandWrappedItems(items);
      var wrapped := ExpandedItems(Map(WrapStatement, items));
      assert ExpandPolicy(ForceArrays(j)) == Obj(j.fields["Statement" := Arr(wrapped)]);
      assert ExpandPolicy(ForceArrays(j)).fields["Statement"] == Arr(wrapped);
      assert ExpandPolicy(j).fields["Statement"] == Arr(ExpandedItems(items));
    }
  }

  /** An accepted principal has no empty arrays at all. */
  lemma AcceptedIsUnmixed(syntax: Syntax, j: Json)
    requires ParsePolicy(syntax, j).Ok?
    ensures NoMixedStatement(j)
  {
    if ExpandsStatements(j) {
      var items := j.fields["Statement"].items;
      forall i | 0 <= i < |items|
        ensures !Mixed(items[i])
      {
        ParsedFieldsRead(syntax, items[i].fields);
        var principal := items[i].fields["Principal"];
        if principal.Obj? {
          ParsedPrincipalIsFlat(syntax, principal.fields);
          FlatHasNoEmptyKind(principal.fields);
        }
      }
    }
  }

  /** Hence on every accepted policy wrapping first makes no difference. */
  lemma ExpandAfterForceAccepted(syntax: Syntax, j: Json)
    requires ParsePolicy(syntax, j).Ok?
    ensures ExpandPolicy(ForceArrays(j)) == ExpandPolicy(j)
  {
    AcceptedIsUnmixed(syntax, j);
    ExpandAfterForce(j);
  }

  /** A document on which it does make a difference, and which no parser accepts. */
  lemma ExpandAfterForceCanDiffer(syntax: Syntax)
    ensures var principal := map["AWS" := Str("a"), "Service" := Arr([])];
            var j := Obj(map["Statement" := Arr([Obj(map["Principal" := Obj(principal)])])]);
            ExpandPolicy(ForceArrays(j)) != ExpandPolicy(j) && ParsePolicy(syntax, j).Err?
  {
    var principal := map["AWS" := Str("a"), "Service" := Arr([])];
    var statement := Obj(map["Principal" := Obj(principal)]);
    var j := Obj(map["Statement" := Arr([statement])]);
    assert PRINCIPAL_KINDS[1] == "Service" && EmptyKind(principal, PRINCIPAL_KINDS[1]);
    assert Mixed(statement);
    assert j.fields["Statement"].items[0] == statement;
    ExpandAfterForce(j);
    if ParsePolicy(syntax, j).Ok? {
      AcceptedIsUnmixed(syntax, j);
    }
  }

  // ------------------------------------------------------------ idempotence

  predicate FlatPrincipalValue(p: Json) {
    p.Obj? ==>
      || HasEmptyKind(p.fields, |PRINCIPAL_KINDS|)
      || forall kind :: kind in p.fields ==> !p.fields[kind].Arr?
  }

  lemma FlatValueVariants(value: Json)
    ensures FlatValue(value) ==> ValueVariants(Some(value)) == [value]
    ensures ValueVariants(Some(value))[0] == value ==> FlatValue(value)
  {
    if !FlatValue(value) {
      assert value.items[0] < value;
    }
  }

  lemma {:induction false} SingleProduct(principal: Fields, n: nat)
    requires n <= |PRINCIPAL_KINDS|
    requires forall kind :: kind in principal ==> !principal[kind].Arr?
    ensures |Product(principal, n)| == 1
    decreases n
  {
    if n > 0 {
      SingleProduct(principal, n - 1);
    }
  }

  lemma FlatProduct(principal: Fields)
    requires KnownKinds(principal)
    requires forall kind :: kind in principal ==> !principal[kind].Arr?
    ensures Product(principal, |PRINCIPAL_KINDS|) == [principal]
  {
    forall kind | kind in principal
      ensures KindBefore(kind, |PRINCIPAL_KINDS|)
    {
      KnownKindBefore(kind);
    }
    assert IsChoice(principal, |PRINCIPAL_KINDS|, principal);
    ProductMembers(principal, |PRINCIPAL_KINDS|, principal);
    SingleProduct(principal, |PRINCIPAL_KINDS|);
  }

  /** Choosing an item out of an array never gives the array back. */
  lemma ChoiceDiffers(principal: Fields, kind: string)
    requires KnownKinds(principal) && kind in principal && principal[kind].Arr?
    ensures principal !in Product(principal, |PRINCIPAL_KINDS|)
  {
    ProductMembers(principal, |PRINCIPAL_KINDS|, principal);
    ArrayNotItsItem(principal[kind]);
    KnownKindBefore(kind);
  }

  lemma ArrayNotItsItem(a: Json)
    requires a.Arr?
    ensures a !in a.items
  {
    forall i | 0 <= i < |a.items|
      ensures a.items[i] != a
    {
      assert a.items[i] < a;
    }
  }

  /** The principals an expansion can produce. */
  predicate ProducedPrincipal(p: Json) {
    p.Obj? ==> HasEmptyKind(p.fields, |PRINCIPAL_KINDS|) || KnownKinds(p.fields)
  }

  lemma VariantsAreProduced(value: Option<Json>, p: Json)
    requires p in PrincipalVariants(value)
    ensures ProducedPrincipal(p)
  {
    if value.Some? && value.value.Obj? && !HasEmptyKind(value.value.fields, |PRINCIPAL_KINDS|) {
      var principal := value.value.fields;
      ProductNonEmpty(principal, |PRINCIPAL_KINDS|);
      MapObjectMembers(Product(principal, |PRINCIPAL_KINDS|), p);
      ProductMembers(principal, |PRINCIPAL_KINDS|, p.fields);
    }
  }

  lemma FlatPrincipalVariants(p: Json)
    requires ProducedPrincipal(p)
    ensures FlatPrincipalValue(p) ==> PrincipalVariants(Some(p)) == [p]
    ensures PrincipalVariants(Some(p)) != []
    ensures PrincipalVariants(Some(p))[0] == p ==> FlatPrincipalValue(p)
  {
    if p.Obj? && !HasEmptyKind(p.fields, |PRINCIPAL_KINDS|) {
      var product := Product(p.fields, |PRINCIPAL_KINDS|);
      ProductNonEmpty(p.fields, |PRINCIPAL_KINDS|);
      if FlatPrincipalValue(p) {
        FlatProduct(p.fields);
        assert Map(AsObject, [p.fields]) == [p];
      } else {
        var kind :| kind in p.fields && p.fields[kind].Arr?;
        ChoiceDiffers(p.fields, kind);
        assert Map(AsObject, product)[0] == Obj(product[0]);
        assert product[0] in product;
      }
    }
  }

  lemma SingleCombination(fields: Fields, p: Json, a: Json, r: Json)
    ensures OverPrincipals(fields, [p], [a], [r]) == [Replace(fields, p, a, r)]
  {
    FirstCombination(fields, [p], [a], [r]);
  }

  lemma Overwrite<K, V>(m: map<K, V>, k1: K, k2: K, k3: K, v1: V, v2: V, v3: V, w1: V, w2: V, w3: V)
    ensures m[k1 := v1][k2 := v2][k3 := v3][k1 := w1][k2 := w2][k3 := w3] == m[k1 := w1][k2 := w2][k3 := w3]
  {
  }

  lemma ReplaceTwice(fields: Fields, p: Json, a: Json, r: Json, p': Json, a': Json, r': Json)
    ensures Replace(Replace(fields, p, a, r).fields, p', a', r') == Replace(fields, p', a', r')
  {
    Overwrite(fields, "Principal", "Action", "Resource", p, a, r, p', a', r');
  }

  /** One combination is stable exactly when its three values are flat. */
  lemma CombinationStable(fields: Fields, p: Json, a: Json, r: Json)
    requires ProducedPrincipal(p)
    ensures var x := Replace(fields, p, a, r);
            ExpandStatement(x) == [x] <==> FlatPrincipalValue(p) && FlatValue(a) && FlatValue(r)
  {
    var x := Replace(fields, p, a, r);
    ReplaceReads(fields, p, a, r);
    var ps, acts, rs := PrincipalVariants(Some(p)), ValueVariants(Some(a)), ValueVariants(Some(r));
    FallbacksUnreachable(x.fields);
    FlatPrincipalVariants(p);
    FlatValueVariants(a);
    FlatValueVariants(r);
    FirstCombination(x.fields, ps, acts, rs);
    ReplaceTwice(fields, p, a, r, ps[0], acts[0], rs[0]);
    ReplaceReads(fields, ps[0], acts[0], rs[0]);
    if FlatPrincipalValue(p) && FlatValue(a) && FlatValue(r) {
      SingleCombination(x.fields, p, a, r);
    }
  }

  /**
    The statement offers no nested array: every action, resource and
    principal choice is final.
    */
  predicate FlatStatement(j: Json) {
    j.Obj? ==>
      && AllFlat(ValueVariants(Field(j.fields, "Action")))
      && AllFlat(ValueVariants(Field(j.fields, "Resource")))
      && forall i :: 0 <= i < |PrincipalVariants(Field(j.fields, "Principal"))| ==>
           FlatPrincipalValue(PrincipalVariants(Field(j.fields, "Principal"))[i])
  }

  ghost predicate Stable(items: seq<Json>) {
    forall x :: x in items ==> ExpandStatement(x) == [x]
  }

  lemma FlatStatementStable(fields: Fields)
    requires FlatStatement(Obj(fields))
    ensures Stable(ExpandFields(fields))
  {
    var ps := PrincipalVariants(Field(fields, "Principal"));
    var acts, rs := ValueVariants(Field(fields, "Action")), ValueVariants(Field(fields, "Resource"));
    forall x | x in ExpandFields(fields)
      ensures ExpandStatement(x) == [x]
    {
      OverPrincipalsMembers(fields, ps, acts, rs, x);
      var p, a, r :| p in ps && a in acts && r in rs && x == Replace(fields, p, a, r);
      VariantsAreProduced(Field(fields, "Principal"), p);
      CombinationStable(fields, p, a, r);
    }
  }

  lemma StableStatementFlat(fields: Fields, p: Json, a: Json, r: Json)
    requires Stable(ExpandFields(fields))
    requires p in PrincipalVariants(Field(fields, "Principal"))
    requires a in ValueVariants(Field(fields, "Action")) && r in ValueVariants(Field(fields, "Resource"))
    ensures FlatPrincipalValue(p) && FlatValue(a) && FlatValue(r)
  {
    var ps := PrincipalVariants(Field(fields, "Principal"));
    var acts, rs := ValueVariants(Field(fields, "Action")), ValueVariants(Field(fields, "Resource"));
    OverPrincipalsMembers(fields, ps, acts, rs, Replace(fields, p, a, r));
    VariantsAreProduced(Field(fields, "Principal"), p);
    CombinationStable(fields, p, a, r);
  }

  lemma StatementStable(j: Json)
    ensures Stable(ExpandStatement(j)) <==> FlatStatement(j)
  {
    if j.Obj? {
      var fields := j.fields;
      FallbacksUnreachable(fields);
      if FlatStatement(j) {
        FlatStatementStable(fields);
      }
      if Stable(ExpandFields(fields)) {
        var ps := PrincipalVariants(Field(fields, "Principal"));
        var acts, rs := ValueVariants(Field(fields, "Action")), ValueVariants(Field(fields, "Resource"));
        PrincipalVariantsNonEmpty(Field(fields, "Principal"));
        forall i | 0 <= i < |ps|
          ensures FlatPrincipalValue(ps[i])
        {
          StableStatementFlat(fields, ps[i], acts[0], rs[0]);
        }
        forall i | 0 <= i < |acts|
          ensures FlatValue(acts[i])
        {
          StableStatementFlat(fields, ps[0], acts[i], rs[0]);
        }
        forall i | 0 <= i < |rs|
          ensures FlatValue(rs[i])
        {
          StableStatementFlat(fields, ps[0], acts[0], rs[i]);
        }
      }
    }
  }

  lemma {:induction false} FlattenLength<A>(parts: seq<seq<A>>)
    requires forall i :: 0 <= i < |parts| ==> parts[i] != []
    ensures |Flatten(parts)| >= |parts|
  {
    if parts != [] {
      FlattenLength(parts[1..]);
    }
  }

  lemma {:induction false} FlattenSingletons<A>(parts: seq<seq<A>>, s: seq<A>)
    requires |parts| == |s| && forall i :: 0 <= i < |parts| ==> parts[i] != []
    ensures Flatten(parts) == s <==> forall i :: 0 <= i < |parts| ==> parts[i] == [s[i]]
  {
    if parts != [] {
      FlattenLength(parts[1..]);
      FlattenSingletons(parts[1..], s[1..]);
      assert s == [s[0]] + s[1..];
      if Flatten(parts) == s {
        assert |parts[0]| == 1;
        assert parts[0] == Flatten(parts)[..1] == [s[0]];
        assert Flatten(parts[1..]) == Flatten(parts)[1..] == s[1..];
        assert forall i :: 0 < i < |parts| ==> parts[i] == parts[1..][i - 1];
      }
      if forall i :: 0 <= i < |parts| ==> parts[i] == [s[i]] {
        assert parts[0] == [s[0]];
        assert forall i :: 0 <= i < |parts[1..]| ==> parts[1..][i] == parts[i + 1];
      }
    }
  }

  lemma ExpansionsNonEmpty(x: Json)
    ensures ExpandStatement(x) != []
  {
    if x.Obj? {
      FallbacksUnreachable(x.fields);
    }
  }

  lemma ItemsStable(items: seq<Json>)
    ensures ExpandedItems(items) == items <==> Stable(items)
  {
    var parts := Map(ExpandStatement, items);
    forall i | 0 <= i < |items|
      ensures parts[i] != []
    {
      ExpansionsNonEmpty(items[i]);
    }
    FlattenSingletons(parts, items);
    if Stable(items) {
      assert forall i :: 0 <= i < |items| ==> items[i] in items;
    }
  }

  lemma ExpandedItemsStable(items: seq<Json>)
    ensures Stable(ExpandedItems(items)) <==> forall i :: 0 <= i < |items| ==> FlatStatement(items[i])
  {
    forall i | 0 <= i < |items|
      ensures Stable(ExpandStatement(items[i])) <==> FlatStatement(items[i])
    {
      StatementStable(items[i]);
    }
    if Stable(ExpandedItems(items)) {
      forall i | 0 <= i < |items|
        ensures Stable(ExpandStatement(items[i]))
      {
        forall x | x in ExpandStatement(items[i])
          ensures ExpandStatement(x) == [x]
        {
          ExpandedItemsMembers(items, x);
        }
      }
    }
    if forall i :: 0 <= i < |items| ==> FlatStatement(items[i]) {
      forall x | x in ExpandedItems(items)
        ensures ExpandStatement(x) == [x]
      {
        ExpandedItemsMembers(items, x);
        var i :| 0 <= i < |items| && x in ExpandStatement(items[i]);
        assert Stable(ExpandStatement(items[i]));
      }
    }
  }

  /**
    Expanding twice is expanding once exactly when no statement nests an
    array inside the arrays being expanded.
    */
  lemma ExpandIdempotent(j: Json)
    ensures ExpandPolicy(ExpandPolicy(j)) == ExpandPolicy(j) <==>
            (ExpandsStatements(j) ==>
               forall i :: 0 <= i < |j.fields["Statement"].items| ==> FlatStatement(j.fields["Statement"].items[i]))
  {
    if ExpandsStatements(j) {
      var items := j.fields["Statement"].items;
      var once := ExpandedItems(items);
      ItemsStable(once);
      ExpandedItemsStable(items);
      var again := j.fields["Statement" := Arr(once)]["Statement" := Arr(ExpandedItems(once))];
      assert ExpandPolicy(ExpandPolicy(j)) == Obj(again);
      assert again["Statement"] == Arr(ExpandedItems(once));
      assert ExpandPolicy(j).fields["Statement"] == Arr(once);
      assert again == ExpandPolicy(j).fields <==> ExpandedItems(once) == once;
    }
  }

  lemma ShallowPrincipalIsFinal(value: Option<Json>, p: Json)
    requires value.Some? ==> ShallowPrincipal(value.value)
    requires p in PrincipalVariants(value)
    ensures FlatPrincipalValue(p)
  {
    if value.Some? && value.value.Obj? && !HasEmptyKind(value.value.fields, |PRINCIPAL_KINDS|) {
      var principal := value.value.fields;
      ProductNonEmpty(principal, |PRINCIPAL_KINDS|);
      MapObjectMembers(Product(principal, |PRINCIPAL_KINDS|), p);
      ProductMembers(principal, |PRINCIPAL_KINDS|, p.fields);
      if !HasEmptyKind(p.fields, |PRINCIPAL_KINDS|) {
        forall kind | kind in p.fields
          ensures !p.fields[kind].Arr?
        {
          var k :| 0 <= k < |PRINCIPAL_KINDS| && PRINCIPAL_KINDS[k] == kind;
          assert Shallow(principal, kind);
          EntriesAreFlat(principal, kind, p.fields[kind]);
          assert !EmptyKind(p.fields, PRINCIPAL_KINDS[k]);
        }
      }
    }
  }

  lemma ShallowStatementIsFlat(j: Json)
    requires ShallowStatement(j)
    ensures FlatStatement(j)
  {
    if j.Obj? {
      var ps := PrincipalVariants(Field(j.fields, "Principal"));
      forall i | 0 <= i < |ps|
        ensures FlatPrincipalValue(ps[i])
      {
        ShallowPrincipalIsFinal(Field(j.fields, "Principal"), ps[i]);
      }
    }
  }

  /** Without nested arrays, and so on every accepted policy, expanding twice is expanding once. */
  lemma ExpandIdempotentShallow(j: Json)
    requires ShallowPolicy(j)
    ensures ExpandPolicy(ExpandPolicy(j)) == ExpandPolicy(j)
  {
    if ExpandsStatements(j) {
      var items := j.fields["Statement"].items;
      forall i | 0 <= i < |items|
        ensures FlatStatement(items[i])
      {
        ShallowStatementIsFlat(items[i]);
      }
    }
    ExpandIdempotent(j);
  }

  lemma ExpandIdempotentAccepted(syntax: Syntax, j: Json)
    requires ParsePolicy(syntax, j).Ok?
    ensures ExpandPolicy(ExpandPolicy(j)) == ExpandPolicy(j)
  {
    AcceptedIsShallow(syntax, j);
    ExpandIdempotentShallow(j);
  }
}
