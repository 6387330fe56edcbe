/**
  Rewritings of a policy document that must not change any decision: wrapping
  single values into arrays, and expanding every statement into one statement
  per principal, action and resource.
  */
module PolicyRewrite {
  import opened Common
  import opened Sequences
  import opened BucketPolicy

  // --------------------------------------------------- wrapping singletons

  function WrapField(fields: map<string, Json>, name: string): map<string, Json> {
    if name in fields && fields[name].Str? then fields[name := Arr([fields[name]])] else fields
  }

  function WrapPrincipal(fields: map<string, Json>): map<string, Json> {
    WrapField(WrapField(WrapField(fields, "AWS"), "Service"), "CanonicalUser")
  }

  function WrapFields(fields: map<string, Json>): map<string, Json> {
    var wrapped := WrapField(WrapField(fields, "Action"), "Resource");
    if "Principal" in wrapped && wrapped["Principal"].Obj?
    then wrapped["Principal" := Obj(WrapPrincipal(wrapped["Principal"].fields))]
    else wrapped
  }

  function WrapStatement(j: Json): Json {
    if j.Obj? then Obj(WrapFields(j.fields)) else j
  }

  /** Singleton strings become arrays wherever the syntax allows an array. */
  function ForceArrays(j: Json): Json {
    if j.Obj? && "Statement" in j.fields && j.fields["Statement"].Arr?
    then Obj(j.fields["Statement" := Arr(Map(WrapStatement, j.fields["Statement"].items))])
    else j
  }

  /** The statement loop, editing a copy of the statement list in place. */
  method ForceSingletonsToArrays(j: Json) returns (r: Json)
    ensures r == ForceArrays(j)
  {
    if !(j.Obj? && "Statement" in j.fields && j.fields["Statement"].Arr?) {
      return j;
    }
    var original := j.fields["Statement"].items;
    var statements := original;
    for i := 0 to |statements|
      invariant |statements| == |original|
      invariant forall k :: 0 <= k < i ==> statements[k] == WrapStatement(original[k])
      invariant forall k :: i <= k < |statements| ==> statements[k] == original[k]
    {
      if statements[i].Obj? {
        var fields := WrapField(WrapField(statements[i].fields, "Action"), "Resource");
        if "Principal" in fields && fields["Principal"].Obj? {
          var principal := WrapField(fields["Principal"].fields, "AWS");
          principal := WrapField(principal, "Service");
          principal := WrapField(principal, "CanonicalUser");
          fields := fields["Principal" := Obj(principal)];
        }
        statements := statements[i := Obj(fields)];
      }
    }
    assert statements == Map(WrapStatement, original);
    return Obj(j.fields["Statement" := Arr(statements)]);
  }

  // -------------------------------------------------------------- expansion

  type Fields = map<string, Json>

  /** An array's items when there are any, else the value itself. */
  function ValueVariants(value: Option<Json>): (r: seq<Json>)
    ensures r != []
  {
    match value
    case Some(Arr(items)) => if items != [] then items else [Arr(items)]
    case Some(other) => [other]
    case None => [Null]
  }

  lemma MultiplyStep(a: nat, b: nat)
    requires a > 0
    ensures a * b == b + (a - 1) * b
  {
  }

  /** One copy of a variant for every entry. */
  function Spread(variant: Fields, name: string, entries: seq<Json>): (r: seq<Fields>)
    ensures |r| == |entries|
    ensures forall i :: 0 <= i < |r| ==> r[i] == variant[name := entries[i]]
  {
    seq(|entries|, i requires 0 <= i < |entries| => variant[name := entries[i]])
  }

  /** Every variant extended by every entry. */
  function SpreadAll(variants: seq<Fields>, name: string, entries: seq<Json>): (r: seq<Fields>)
    ensures |r| == |variants| * |entries|
  {
    if variants == [] then []
    else
      var n := |variants| - 1;
      MultiplyStep(|variants|, |entries|);
      SpreadAll(variants[..n], name, entries) + Spread(variants[n], name, entries)
  }

  /** The entries a principal kind offers: an array's items, or the single value. */
  function Entries(value: Json): seq<Json> {
    if value.Arr? then value.items else [value]
  }

  function AddKind(principal: Fields, kind: string, variants: seq<Fields>): seq<Fields> {
    if kind in principal then SpreadAll(variants, kind, Entries(principal[kind])) else variants
  }

  /** The Cartesian product over the first `n` principal kinds. */
  function Product(principal: Fields, n: nat): seq<Fields>
    requires n <= |PRINCIPAL_KINDS|
  {
    if n == 0 then [map[]] else AddKind(principal, PRINCIPAL_KINDS[n - 1], Product(principal, n - 1))
  }

  predicate EmptyKind(principal: Fields, kind: string) {
    kind in principal && principal[kind] == Arr([])
  }

  /** Whether one of the first `n` kinds is an empty array. */
  predicate HasEmptyKind(principal: Fields, n: nat)
    requires n <= |PRINCIPAL_KINDS|
  {
    exists k :: 0 <= k < n && EmptyKind(principal, PRINCIPAL_KINDS[k])
  }

  function AsObject(fields: Fields): Json {
    Obj(fields)
  }

  function PrincipalVariants(value: Option<Json>): seq<Json> {
    match value
    case None => [Null]
    case Some(Obj(principal)) =>
      if HasEmptyKind(principal, |PRINCIPAL_KINDS|) || Product(principal, |PRINCIPAL_KINDS|) == []
      then [Obj(principal)]
      else Map(AsObject, Product(principal, |PRINCIPAL_KINDS|))
    case Some(other) => [other]
  }

  function Replace(fields: Fields, principal: Json, action: Json, resource: Json): Json {
    Obj(fields["Principal" := principal]["Action" := action]["Resource" := resource])
  }

  function OverResources(fields: Fields, principal: Json, action: Json, resources: seq<Json>): (r: seq<Json>)
    ensures |r| == |resources|
    ensures forall i :: 0 <= i < |r| ==> r[i] == Replace(fields, principal, action, resources[i])
  {
    seq(|resources|, i requires 0 <= i < |resources| => Replace(fields, principal, action, resources[i]))
  }

  function OverActions(fields: Fields, principal: Json, actions: seq<Json>, resources: seq<Json>): (r: seq<Json>)
    ensures |r| == |actions| * |resources|
  {
    if actions == [] then []
    else
      var n := |actions| - 1;
      MultiplyStep(|actions|, |resources|);
      OverActions(fields, principal, actions[..n], resources)
      + OverResources(fields, principal, actions[n], resources)
  }

  function OverPrincipals(fields: Fields, principals: seq<Json>, actions: seq<Json>, resources: seq<Json>)
    : (r: seq<Json>)
    ensures |r| == |principals| * (|actions| * |resources|)
  {
    if principals == [] then []
    else
      var n := |principals| - 1;
      MultiplyStep(|principals|, |actions| * |resources|);
      OverPrincipals(fields, principals[..n], actions, resources)
      + OverActions(fields, principals[n], actions, resources)
  }

  function ExpandFields(fields: Fields): seq<Json> {
    OverPrincipals(fields, PrincipalVariants(Field(fields, "Principal")),
                   ValueVariants(Field(fields, "Action")), ValueVariants(Field(fields, "Resource")))
  }

  function ExpandStatement(j: Json): seq<Json> {
    if !j.Obj? then [j]
    else if ExpandFields(j.fields) == [] then [j]
    else ExpandFields(j.fields)
  }

  function ExpandPolicy(j: Json): Json {
    if j.Obj? && "Statement" in j.fields && j.fields["Statement"].Arr?
    then Obj(j.fields["Statement" := Arr(Flatten(Map(ExpandStatement, j.fields["Statement"].items)))])
    else j
  }

  // --------------------------------------------------------- nested arrays

  /** A value that further expansion would leave alone. */
  predicate FlatValue(value: Json) {
    !(value.Arr? && value.items != [])
  }

  predicate AllFlat(values: seq<Json>) {
    forall i :: 0 <= i < |values| ==> FlatValue(values[i])
  }

  /** No array with items inside an array; empty arrays are allowed anywhere. */
  predicate Shallow(fields: Fields, name: string) {
    name in fields && fields[name].Arr? ==> AllFlat(fields[name].items)
  }

  predicate ShallowPrincipal(j: Json) {
    j.Obj? ==> Shallow(j.fields, "AWS") && Shallow(j.fields, "Service") && Shallow(j.fields, "CanonicalUser")
  }

  predicate ShallowStatement(j: Json) {
    j.Obj? ==>
      && Shallow(j.fields, "Action") && Shallow(j.fields, "Resource")
      && ("Principal" in j.fields ==> ShallowPrincipal(j.fields["Principal"]))
  }

  /** Every value the expansion looks at is flat: one level of arrays at most. */
  predicate ShallowPolicy(j: Json) {
    j.Obj? && "Statement" in j.fields && j.fields["Statement"].Arr? ==>
      forall i :: 0 <= i < |j.fields["Statement"].items| ==> ShallowStatement(j.fields["Statement"].items[i])
  }

  // -------------------------------------------------------- expansion loops

  method ExtendVariants(variants: seq<Fields>, kind: string, entries: seq<Json>) returns (next: seq<Fields>)
    ensures next == SpreadAll(variants, kind, entries)
  {
    next := [];
    for v := 0 to |variants|
      invariant next == SpreadAll(variants[..v], kind, entries)
    {
      assert variants[..v + 1][..v] == variants[..v];
      ghost var before := next;
      for e := 0 to |entries|
        invariant next == before + Spread(variants[v], kind, entries)[..e]
      {
        next := next + [variants[v][kind := entries[e]]];
      }
    }
    assert variants[..|variants|] == variants;
  }

  method SetOnVariants(variants: seq<Fields>, kind: string, value: Json) returns (next: seq<Fields>)
    ensures next == SpreadAll(variants, kind, [value])
  {
    next := variants;
    for v := 0 to |variants|
      invariant |next| == |variants|
      invariant next[..v] == SpreadAll(variants[..v], kind, [value])
      invariant next[v..] == variants[v..]
    {
      assert variants[..v + 1][..v] == variants[..v];
      next := next[v := next[v][kind := value]];
      assert next[..v + 1] == next[..v] + Spread(variants[v], kind, [value]);
    }
    assert variants[..|variants|] == variants && next[..|variants|] == next;
  }

  method BuildPrincipalVariants(value: Option<Json>) returns (r: seq<Json>)
    ensures r == PrincipalVariants(value)
  {
    if value.None? {
      return [Null];
    }
    if !value.value.Obj? {
      return [value.value];
    }
    var principal := value.value.fields;
    var variants: seq<Fields> := [map[]];
    for k := 0 to |PRINCIPAL_KINDS|
      invariant !HasEmptyKind(principal, k)
      invariant variants == Product(principal, k)
    {
      var kind := PRINCIPAL_KINDS[k];
      if kind in principal {
        match principal[kind] {
          case Arr(items) =>
            if items == [] {
              assert EmptyKind(principal, PRINCIPAL_KINDS[k]);
              return [value.value];
            }
            variants := ExtendVariants(variants, kind, items);
          case other =>
            variants := SetOnVariants(variants, kind, other);
        }
      }
    }
    return if variants == [] then [value.value] else Map(AsObject, variants);
  }

  method BuildRow(fields: Fields, principal: Json, action: Json, resources: seq<Json>) returns (row: seq<Json>)
    ensures row == OverResources(fields, principal, action, resources)
  {
    row := [];
    for r := 0 to |resources|
      invariant |row| == r
      invariant forall i :: 0 <= i < r ==> row[i] == Replace(fields, principal, action, resources[i])
    {
      row := row + [Replace(fields, principal, action, resources[r])];
    }
  }

  method BuildForPrincipal(fields: Fields, principal: Json, actions: seq<Json>, resources: seq<Json>)
    returns (expanded: seq<Json>)
    ensures expanded == OverActions(fields, principal, actions, resources)
  {
    expanded := [];
    for a := 0 to |actions|
      invariant expanded == OverActions(fields, principal, actions[..a], resources)
    {
      assert actions[..a + 1][..a] == actions[..a];
      var row := BuildRow(fields, principal, actions[a], resources);
      expanded := expanded + row;
    }
    assert actions[..|actions|] == actions;
  }

  method BuildStatements(j: Json) returns (expanded: seq<Json>)
    ensures expanded == ExpandStatement(j)
  {
    if !j.Obj? {
      return [j];
    }
    var actions := ValueVariants(Field(j.fields, "Action"));
    var resources := ValueVariants(Field(j.fields, "Resource"));
    var principals := BuildPrincipalVariants(Field(j.fields, "Principal"));
    expanded := [];
    for p := 0 to |principals|
      invariant expanded == OverPrincipals(j.fields, principals[..p], actions, resources)
    {
      assert principals[..p + 1][..p] == principals[..p];
      var more := BuildForPrincipal(j.fields, principals[p], actions, resources);
      expanded := expanded + more;
    }
    assert principals[..|principals|] == principals;
    return if expanded == [] then [j] else expanded;
  }

  lemma ExpandStep(statements: seq<Json>, i: nat)
    requires i < |statements|
    ensures Flatten(Map(ExpandStatement, statements[..i + 1]))
         == Flatten(Map(ExpandStatement, statements[..i])) + ExpandStatement(statements[i])
  {
    assert statements[..i + 1] == statements[..i] + [statements[i]];
    MapAppend(ExpandStatement, statements[..i], statements[i]);
    FlattenAppend(Map(ExpandStatement, statements[..i]), ExpandStatement(statements[i]));
  }

  method ExpandStatementArrays(j: Json) returns (r: Json)
    ensures r == ExpandPolicy(j)
  {
    if !(j.Obj? && "Statement" in j.fields && j.fields["Statement"].Arr?) {
      return j;
    }
    var statements := j.fields["Statement"].items;
    var expanded: seq<Json> := [];
    for i := 0 to |statements|
      invariant expanded == Flatten(Map(ExpandStatement, statements[..i]))
    {
      var more := BuildStatements(statements[i]);
      ExpandStep(statements, i);
      expanded := expanded + more;
    }
    assert statements[..|statements|] == statements;
    return Obj(j.fields["Statement" := Arr(expanded)]);
  }
}
