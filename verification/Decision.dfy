/** Three-valued policy decisions and their deny-first union. */
module Decision {

  datatype Decision = ExplicitDeny | ExplicitAllow | NoMatch

  /** Any denial denies; otherwise any grant allows. */
  function Union(ds: seq<Decision>): Decision {
    if ExplicitDeny in ds then ExplicitDeny
    else if ExplicitAllow in ds then ExplicitAllow
    else NoMatch
  }

  /**
    The union depends only on which decisions occur, so order, repetition and
    undecided entries are irrelevant.
    */
  lemma UnionByMembers(ds: seq<Decision>, ds': seq<Decision>)
    requires forall d :: d != NoMatch ==> (d in ds <==> d in ds')
    ensures Union(ds) == Union(ds')
  {
    assert ExplicitDeny in ds <==> ExplicitDeny in ds';
    assert ExplicitAllow in ds <==> ExplicitAllow in ds';
  }
}
