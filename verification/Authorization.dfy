/**
  IAM authorization decisions: the union of inline policies, the restriction
  by a session policy, and the composition of trust and identity policies
  when a role is assumed. Evaluating one policy document is a parameter.
  */
module Authorization {
  import opened Common
  import opened Decision

  // ------------------------------------------------------- inline policies

  function Outcomes<P, R>(evaluate: (P, R) -> Decision, policies: seq<P>, request: R): (ds: seq<Decision>)
    ensures |ds| == |policies|
    ensures forall i :: 0 <= i < |ds| ==> ds[i] == evaluate(policies[i], request)
  {
    seq(|policies|, i requires 0 <= i < |policies| => evaluate(policies[i], request))
  }

  function IdentityDecision<P, R>(evaluate: (P, R) -> Decision, policies: seq<P>, request: R): Decision {
    Union(Outcomes(evaluate, policies, request))
  }

  /** The evaluation loop with its early return on a denial. */
  method EvaluateInlinePolicies<P, R>(evaluate: (P, R) -> Decision, policies: seq<P>, request: R)
    returns (d: Decision)
    ensures d == IdentityDecision(evaluate, policies, request)
  {
    var sawAllow := false;
    ghost var all := Outcomes(evaluate, policies, request);
    for i := 0 to |policies|
      invariant ExplicitDeny !in all[..i]
      invariant sawAllow <==> ExplicitAllow in all[..i]
    {
      assert all[..i + 1] == all[..i] + [all[i]];
      match evaluate(policies[i], request) {
        case ExplicitDeny =>
          assert all[i] == ExplicitDeny;
          return ExplicitDeny;
        case ExplicitAllow => sawAllow := true;
        case NoMatch =>
      }
    }
    assert all[..|policies|] == all;
    return if sawAllow then ExplicitAllow else NoMatch;
  }

  /** Attachments form a set: order and repetition do not matter. */
  lemma AttachmentsAreASet<P, R>(evaluate: (P, R) -> Decision, policies: seq<P>, policies': seq<P>, request: R)
    requires forall p :: p in policies <==> p in policies'
    ensures IdentityDecision(evaluate, policies, request) == IdentityDecision(evaluate, policies', request)
  {
    OutcomesIncluded(evaluate, policies, policies', request);
    OutcomesIncluded(evaluate, policies', policies, request);
    UnionByMembers(Outcomes(evaluate, policies, request), Outcomes(evaluate, policies', request));
  }

  lemma OutcomesIncluded<P, R>(evaluate: (P, R) -> Decision, policies: seq<P>, policies': seq<P>, request: R)
    requires forall p :: p in policies ==> p in policies'
    ensures forall d :: d in Outcomes(evaluate, policies, request) ==> d in Outcomes(evaluate, policies', request)
  {
    forall d | d in Outcomes(evaluate, policies, request)
      ensures d in Outcomes(evaluate, policies', request)
    {
      var i :| 0 <= i < |policies| && Outcomes(evaluate, policies, request)[i] == d;
      assert policies[i] in policies';
      var k :| 0 <= k < |policies'| && policies'[k] == policies[i];
      assert Outcomes(evaluate, policies', request)[k] == d;
    }
  }

  // ------------------------------------------------------- session policies

  function Intersect(role: Decision, session: Decision): Decision {
    if role == ExplicitDeny || session == ExplicitDeny then ExplicitDeny
    else if role == ExplicitAllow && session == ExplicitAllow then ExplicitAllow
    else NoMatch
  }

  function SessionDecision(role: Decision, session: Option<Decision>): Decision {
    if session.None? then role else Intersect(role, session.value)
  }

  /** How permissive a decision is. */
  function Rank(d: Decision): nat {
    match d
    case ExplicitDeny => 0
    case NoMatch => 1
    case ExplicitAllow => 2
  }

  /** The intersection is the less permissive of the two decisions. */
  lemma IntersectIsMeet(role: Decision, session: Decision)
    ensures Rank(Intersect(role, session)) == if Rank(role) <= Rank(session) then Rank(role) else Rank(session)
  {
  }

  function IntersectEach(ds: seq<Decision>, session: Decision): (r: seq<Decision>)
    ensures |r| == |ds| && forall i :: 0 <= i < |r| ==> r[i] == Intersect(ds[i], session)
  {
    seq(|ds|, i requires 0 <= i < |ds| => Intersect(ds[i], session))
  }

  /**
    A session policy restricts the role as if it restricted every attachment,
    except for a role without attachments under a denying session policy.
    */
  lemma SessionDistributes(ds: seq<Decision>, session: Decision)
    ensures Intersect(Union(ds), session) == Union(IntersectEach(ds, session)) <==>
            ds != [] || session != ExplicitDeny
  {
    var each := IntersectEach(ds, session);
    if ds != [] {
      assert each[0] in each;
    }
    if ExplicitDeny in ds {
      var i :| 0 <= i < |ds| && ds[i] == ExplicitDeny;
      assert each[i] == ExplicitDeny;
    }
    if ExplicitAllow in ds {
      var i :| 0 <= i < |ds| && ds[i] == ExplicitAllow;
      assert each[i] == Intersect(ExplicitAllow, session);
    }
    assert forall d :: d in each ==> exists i :: 0 <= i < |ds| && d == Intersect(ds[i], session) && ds[i] in ds;
  }

  /** A session never permits more than the role does. */
  lemma SessionNeverWidens(role: Decision, session: Option<Decision>)
    ensures Rank(SessionDecision(role, session)) <= Rank(role)
    ensures SessionDecision(role, session) == ExplicitAllow <==>
            role == ExplicitAllow && (session.None? || session.value == ExplicitAllow)
  {
    if session.Some? {
      IntersectIsMeet(role, session.value);
    }
  }

  // ------------------------------------------------------------ trust policy

  datatype TrustPrincipal = Anyone | Account(id: string) | ExactPrincipal(account: string, principal: string)

  datatype TrustStatement = TrustStatement(denies: bool, principals: seq<TrustPrincipal>)

  datatype Strength = Delegated | Direct

  datatype TrustDecision = TrustDeny | TrustDirect | TrustDelegated | TrustNone

  /** The account and principal asking, and the account owning the role. */
  datatype Caller = Caller(account: string, principal: string, roleAccount: string)

  function GrantStrength(caller: Caller): Strength {
    if caller.account == caller.roleAccount then Direct else Delegated
  }

  function PrincipalMatch(p: TrustPrincipal, caller: Caller): Option<Strength> {
    match p
    case Anyone => Some(GrantStrength(caller))
    case Account(id) => if id == caller.account then Some(Delegated) else None
    case ExactPrincipal(account, principal) =>
      if account == caller.account && principal == caller.principal then Some(GrantStrength(caller)) else None
  }

  function Strongest(left: Option<Strength>, right: Option<Strength>): Option<Strength> {
    if left == Some(Direct) || right == Some(Direct) then Some(Direct)
    else if left.Some? then left
    else right
  }

  predicate SomePrincipal(principals: seq<TrustPrincipal>, caller: Caller, strength: Strength) {
    exists i :: 0 <= i < |principals| && PrincipalMatch(principals[i], caller) == Some(strength)
  }

  /** The strongest way a statement admits the caller. */
  method StatementMatch(s: TrustStatement, caller: Caller) returns (m: Option<Strength>)
    ensures m == Some(Direct) <==> SomePrincipal(s.principals, caller, Direct)
    ensures m.Some? <==> SomePrincipal(s.principals, caller, Direct) || SomePrincipal(s.principals, caller, Delegated)
  {
    m := None;
    for i := 0 to |s.principals|
      invariant m == Some(Direct) <==> SomePrincipal(s.principals[..i], caller, Direct)
      invariant m.Some? <==>
                SomePrincipal(s.principals[..i], caller, Direct) || SomePrincipal(s.principals[..i], caller, Delegated)
    {
      PrincipalStep(s.principals, i, caller, Direct);
      PrincipalStep(s.principals, i, caller, Delegated);
      m := Strongest(m, PrincipalMatch(s.principals[i], caller));
    }
    assert s.principals[..|s.principals|] == s.principals;
  }

  lemma PrincipalStep(principals: seq<TrustPrincipal>, i: nat, caller: Caller, strength: Strength)
    requires i < |principals|
    ensures SomePrincipal(principals[..i + 1], caller, strength) <==>
            SomePrincipal(principals[..i], caller, strength) || PrincipalMatch(principals[i], caller) == Some(strength)
  {
    if SomePrincipal(principals[..i], caller, strength) {
      var k :| 0 <= k < i && PrincipalMatch(principals[..i][k], caller) == Some(strength);
      assert principals[..i + 1][k] == principals[..i][k];
    }
    if PrincipalMatch(principals[i], caller) == Some(strength) {
      assert principals[..i + 1][i] == principals[i];
    }
    forall k | 0 <= k < i
      ensures principals[..i][k] == principals[..i + 1][k]
    {
    }
  }

  predicate Admits(s: TrustStatement, caller: Caller, strength: Strength) {
    SomePrincipal(s.principals, caller, strength)
  }

  predicate AdmitsAtAll(s: TrustStatement, caller: Caller) {
    Admits(s, caller, Direct) || Admits(s, caller, Delegated)
  }

  predicate Denied(statements: seq<TrustStatement>, caller: Caller) {
    exists i :: 0 <= i < |statements| && statements[i].denies && AdmitsAtAll(statements[i], caller)
  }

  predicate Granted(statements: seq<TrustStatement>, caller: Caller, strength: Strength) {
    exists i :: 0 <= i < |statements| && !statements[i].denies && Admits(statements[i], caller, strength)
  }

  /** Denials first, then direct grants, then delegated ones. */
  function Trust(statements: seq<TrustStatement>, caller: Caller): TrustDecision {
    if Denied(statements, caller) then TrustDeny
    else if Granted(statements, caller, Direct) then TrustDirect
    else if Granted(statements, caller, Delegated) then TrustDelegated
    else TrustNone
  }

  lemma StatementStep(statements: seq<TrustStatement>, i: nat, caller: Caller)
    requires i < |statements|
    ensures Denied(statements[..i + 1], caller) <==>
            Denied(statements[..i], caller) || (statements[i].denies && AdmitsAtAll(statements[i], caller))
    ensures forall strength ::
              Granted(statements[..i + 1], caller, strength) <==>
              Granted(statements[..i], caller, strength) || (!statements[i].denies && Admits(statements[i], caller, strength))
  {
    assert statements[..i + 1][i] == statements[i];
    assert forall k :: 0 <= k < i ==> statements[..i + 1][k] == statements[..i][k];
    if Denied(statements[..i], caller) {
      var k :| 0 <= k < i && statements[..i][k].denies && AdmitsAtAll(statements[..i][k], caller);
      assert statements[..i + 1][k].denies;
    }
    forall strength | Granted(statements[..i], caller, strength)
      ensures Granted(statements[..i + 1], caller, strength)
    {
      var k :| 0 <= k < i && !statements[..i][k].denies && Admits(statements[..i][k], caller, strength);
      assert !statements[..i + 1][k].denies;
    }
  }

  lemma DeniedPrefix(statements: seq<TrustStatement>, i: nat, caller: Caller)
    requires i <= |statements| && Denied(statements[..i], caller)
    ensures Denied(statements, caller)
  {
    var k :| 0 <= k < i && statements[..i][k].denies && AdmitsAtAll(statements[..i][k], caller);
    assert statements[k] == statements[..i][k];
  }

  /** The trust-policy loop with its early return on a denial. */
  method EvaluateTrust(statements: seq<TrustStatement>, caller: Caller) returns (d: TrustDecision)
    ensures d == Trust(statements, caller)
  {
    var strongest: Option<Strength> := None;
    for i := 0 to |statements|
      invariant !Denied(statements[..i], caller)
      invariant strongest == Some(Direct) <==> Granted(statements[..i], caller, Direct)
      invariant strongest.Some? <==>
                Granted(statements[..i], caller, Direct) || Granted(statements[..i], caller, Delegated)
    {
      StatementStep(statements, i, caller);
      var m := StatementMatch(statements[i], caller);
      if m.Some? {
        if statements[i].denies {
          DeniedPrefix(statements, i + 1, caller);
          return TrustDeny;
        }
        strongest := Strongest(strongest, m);
      }
    }
    assert statements[..|statements|] == statements;
    return match strongest
      case Some(Direct) => TrustDirect
      case Some(Delegated) => TrustDelegated
      case None => TrustNone;
  }

  // ---------------------------------------------------------- assuming roles

  function Compose(trust: TrustDecision, identity: Decision): Decision {
    if trust == TrustDeny || identity == ExplicitDeny then ExplicitDeny
    else match trust
    case TrustDirect => ExplicitAllow
    case TrustDelegated => if identity == ExplicitAllow then ExplicitAllow else NoMatch
    case _ => NoMatch
  }

  function AssumeRole(statements: seq<TrustStatement>, caller: Caller, identity: Decision): Decision {
    Compose(Trust(statements, caller), identity)
  }

  /** Exactly when a caller may assume a role. */
  lemma AssumeRoleAllowed(statements: seq<TrustStatement>, caller: Caller, identity: Decision)
    ensures AssumeRole(statements, caller, identity) == ExplicitAllow <==>
            && !Denied(statements, caller) && identity != ExplicitDeny
            && (|| Granted(statements, caller, Direct)
                || (Granted(statements, caller, Delegated) && identity == ExplicitAllow))
    ensures AssumeRole(statements, caller, identity) == ExplicitDeny <==>
            Denied(statements, caller) || identity == ExplicitDeny
  {
  }

  /** Across accounts nothing is granted directly. */
  lemma CrossAccountIsDelegated(statements: seq<TrustStatement>, caller: Caller)
    requires caller.account != caller.roleAccount
    ensures !Granted(statements, caller, Direct)
  {
    forall i | 0 <= i < |statements| && !statements[i].denies
      ensures !Admits(statements[i], caller, Direct)
    {
      assert forall k :: 0 <= k < |statements[i].principals| ==>
        PrincipalMatch(statements[i].principals[k], caller) != Some(Direct);
    }
  }

  /**
    Both sides must agree across accounts: whatever the trust policy says, a
    caller from another account needs an explicit identity grant.
    */
  lemma CrossAccountNeedsBoth(statements: seq<TrustStatement>, caller: Caller, identity: Decision)
    requires caller.account != caller.roleAccount
    requires AssumeRole(statements, caller, identity) == ExplicitAllow
    ensures identity == ExplicitAllow && Granted(statements, caller, Delegated) && !Denied(statements, caller)
  {
    CrossAccountIsDelegated(statements, caller);
    AssumeRoleAllowed(statements, caller, identity);
  }
}
