/**
  The store of role authorization records: a primary map by stable role id
  and an index from role ARN to stable id, kept in step by every insertion.
  */
module RecordStore {
  import opened Common

  datatype Role = Role(stableId: string, arn: string, policyNames: seq<string>)

  datatype PrincipalRecord = PrincipalRecord(account: string, principal: string, policyNames: seq<string>)

  datatype StoreError = DuplicateStableRoleId | DuplicateRoleArn | DuplicateConfiguredPrincipal

  datatype Index = Index(roles: map<string, Role>, arns: map<string, string>)

  /** The two maps are mutually inverse views of the same roles. */
  ghost predicate InStep(ix: Index) {
    && (forall id :: id in ix.roles ==>
          && ix.roles[id].stableId == id
          && ix.roles[id].arn in ix.arns && ix.arns[ix.roles[id].arn] == id)
    && (forall arn :: arn in ix.arns ==> ix.arns[arn] in ix.roles && ix.roles[ix.arns[arn]].arn == arn)
  }

  function InsertRole(ix: Index, role: Role): Result<Index, StoreError> {
    if role.stableId in ix.roles then Err(DuplicateStableRoleId)
    else if role.arn in ix.arns then Err(DuplicateRoleArn)
    else Ok(Index(ix.roles[role.stableId := role], ix.arns[role.arn := role.stableId]))
  }

  function FindByArn(ix: Index, arn: string): Option<Role> {
    if arn in ix.arns && ix.arns[arn] in ix.roles then Some(ix.roles[ix.arns[arn]]) else None
  }

  /** A refused insertion leaves the index as it was. */
  function Step(ix: Index, role: Role): Index {
    match InsertRole(ix, role)
    case Ok(next) => next
    case Err(_) => ix
  }

  function Replay(history: seq<Role>): Index {
    if history == [] then Index(map[], map[])
    else Step(Replay(history[..|history| - 1]), history[|history| - 1])
  }

  // ------------------------------------------------- the reference: a list

  predicate Clashes(kept: seq<Role>, role: Role) {
    exists i :: 0 <= i < |kept| && (kept[i].stableId == role.stableId || kept[i].arn == role.arn)
  }

  /** The roles kept by scanning the history and refusing any repetition. */
  function Kept(history: seq<Role>): seq<Role> {
    if history == [] then []
    else
      var before := Kept(history[..|history| - 1]);
      var role := history[|history| - 1];
      if Clashes(before, role) then before else before + [role]
  }

  function LinearSearch(kept: seq<Role>, arn: string): (r: Option<Role>)
    ensures r.Some? ==> r.value in kept && r.value.arn == arn
    ensures r.None? ==> forall i :: 0 <= i < |kept| ==> kept[i].arn != arn
  {
    if kept == [] then None
    else if kept[0].arn == arn then Some(kept[0])
    else
      assert forall i :: 0 < i < |kept| ==> kept[i] == kept[1..][i - 1];
      LinearSearch(kept[1..], arn)
  }

  /** The index holds exactly the kept roles. */
  ghost predicate Holds(ix: Index, kept: seq<Role>) {
    && (forall i :: 0 <= i < |kept| ==> kept[i].stableId in ix.roles && ix.roles[kept[i].stableId] == kept[i])
    && (forall id :: id in ix.roles ==> ix.roles[id] in kept)
  }

  lemma ClashIsIndexed(ix: Index, kept: seq<Role>, role: Role)
    requires InStep(ix) && Holds(ix, kept)
    ensures Clashes(kept, role) <==> InsertRole(ix, role).Err?
  {
    if role.stableId in ix.roles {
      var i :| 0 <= i < |kept| && kept[i] == ix.roles[role.stableId];
      assert kept[i].stableId == role.stableId;
    } else if role.arn in ix.arns {
      var i :| 0 <= i < |kept| && kept[i] == ix.roles[ix.arns[role.arn]];
      assert kept[i].arn == role.arn;
    }
  }

  lemma InsertKeepsInStep(ix: Index, role: Role)
    requires InStep(ix) && InsertRole(ix, role).Ok?
    ensures InStep(InsertRole(ix, role).value)
  {
  }

  lemma InsertHolds(ix: Index, kept: seq<Role>, role: Role)
    requires InStep(ix) && Holds(ix, kept) && InsertRole(ix, role).Ok?
    ensures Holds(InsertRole(ix, role).value, kept + [role])
  {
    var next, all := InsertRole(ix, role).value, kept + [role];
    forall i | 0 <= i < |all|
      ensures all[i].stableId in next.roles && next.roles[all[i].stableId] == all[i]
    {
      if i < |kept| {
        assert all[i] == kept[i] && kept[i].stableId in ix.roles;
      }
    }
    forall id | id in next.roles
      ensures next.roles[id] in all
    {
      if id == role.stableId {
        assert all[|kept|] == role;
      } else {
        assert ix.roles[id] in kept;
      }
    }
  }

  /** Over every history of insertions the index refines the list of kept roles. */
  lemma {:induction false} ReplayRefinesList(history: seq<Role>)
    ensures InStep(Replay(history)) && Holds(Replay(history), Kept(history))
  {
    if history != [] {
      var n := |history| - 1;
      ReplayRefinesList(history[..n]);
      var ix, kept, role := Replay(history[..n]), Kept(history[..n]), history[n];
      ClashIsIndexed(ix, kept, role);
      if InsertRole(ix, role).Ok? {
        InsertKeepsInStep(ix, role);
        InsertHolds(ix, kept, role);
      }
    }
  }

  /** Looking up an ARN finds what scanning the kept roles would find. */
  lemma FindIsLinearSearch(ix: Index, kept: seq<Role>, arn: string)
    requires InStep(ix) && Holds(ix, kept)
    ensures FindByArn(ix, arn) == LinearSearch(kept, arn)
    ensures arn in ix.arns <==> FindByArn(ix, arn).Some?
  {
    var found := LinearSearch(kept, arn);
    if found.Some? {
      var i :| 0 <= i < |kept| && kept[i] == found.value;
      assert ix.roles[kept[i].stableId] == kept[i];
    }
    assert arn in ix.arns ==> ix.roles[ix.arns[arn]] in kept;
  }

  /** Lookup after any history; the second map access never misses. */
  lemma LookupAfterHistory(history: seq<Role>, arn: string)
    ensures FindByArn(Replay(history), arn) == LinearSearch(Kept(history), arn)
    ensures arn in Replay(history).arns ==> Replay(history).arns[arn] in Replay(history).roles
  {
    ReplayRefinesList(history);
    FindIsLinearSearch(Replay(history), Kept(history), arn);
  }

  // ---------------------------------------------------------------- the store

  class AuthorizationRecordStore {
    var roles: map<string, Role>
    var roleArns: map<string, string>
    var configuredPrincipals: map<(string, string), PrincipalRecord>
    ghost var history: seq<Role>

    /** The maps are what replaying the insertions gives. */
    ghost predicate Valid()
      reads this
    {
      Index(roles, roleArns) == Replay(history)
    }

    constructor ()
      ensures Valid() && history == [] && configuredPrincipals == map[]
    {
      roles, roleArns, configuredPrincipals, history := map[], map[], map[], [];
    }

    method AddRole(role: Role) returns (r: Result<(), StoreError>)
      requires Valid()
      modifies this`roles, this`roleArns, this`history
      ensures Valid() && history == old(history) + [role]
      ensures r.Err? ==> roles == old(roles) && roleArns == old(roleArns)
      ensures match InsertRole(old(Index(roles, roleArns)), role)
              case Ok(next) => r == Ok(()) && Index(roles, roleArns) == next
              case Err(e) => r == Err(e)
      ensures r.Ok? <==> !Clashes(Kept(old(history)), role)
    {
      ReplayRefinesList(history);
      ClashIsIndexed(Index(roles, roleArns), Kept(history), role);
      assert (history + [role])[..|history|] == history;
      history := history + [role];
      if role.stableId in roles {
        return Err(DuplicateStableRoleId);
      }
      if role.arn in roleArns {
        return Err(DuplicateRoleArn);
      }
      roleArns := roleArns[role.arn := role.stableId];
      roles := roles[role.stableId := role];
      return Ok(());
    }

    method RoleByArn(arn: string) returns (r: Option<Role>)
      requires Valid()
      ensures r == LinearSearch(Kept(history), arn)
    {
      LookupAfterHistory(history, arn);
      if arn !in roleArns {
        return None;
      }
      r := if roleArns[arn] in roles then Some(roles[roleArns[arn]]) else None;
    }

    method AddConfiguredPrincipal(record: PrincipalRecord) returns (r: Result<(), StoreError>)
      modifies this`configuredPrincipals
      ensures var key := (record.account, record.principal);
              if key in old(configuredPrincipals)
              then r == Err(DuplicateConfiguredPrincipal) && configuredPrincipals == old(configuredPrincipals)
              else r == Ok(()) && configuredPrincipals == old(configuredPrincipals)[key := record]
    {
      var key := (record.account, record.principal);
      if key in configuredPrincipals {
        return Err(DuplicateConfiguredPrincipal);
      }
      configuredPrincipals := configuredPrincipals[key := record];
      return Ok(());
    }
  }
}
