/**
  The four authentication credential lists of the control plane. They share
  one grammar, `owner=credential_id:version:secret` separated by commas, and
  differ only in what an owner is: a Raft or storage node id, or the instance
  id of a frontend or an administrator.
  */
module Credentials {
  import opened Common
  import opened Sequences
  import opened Text
  import opened ListParser


  datatype Owner = Node(node: nat) | Instance(instance: string)

  datatype OwnerKind = NodeOwner(maxNode: nat) | InstanceOwner

  const RAFT: OwnerKind := NodeOwner(MAX_U64)
  const STORAGE: OwnerKind := NodeOwner(MAX_U32)
  const FRONTEND: OwnerKind := InstanceOwner
  const ADMIN: OwnerKind := InstanceOwner

  datatype Credential = Credential(owner: Owner, id: string, version: nat, secret: string)

  type CredentialIdentity = (Owner, string, nat)

  datatype CredentialError =
    | EntryEmpty
    | OwnerSeparatorMissing
    | OwnerInvalid
    | CredentialIdInvalid
    | VersionInvalid
    | VersionZero
    | SecretInvalid
    | IdentityDuplicate

  function IdentityOf(c: Credential): CredentialIdentity {
    (c.owner, c.id, c.version)
  }

  // --------------------------------------------------------------- validity

  predicate ValidOwner(kind: OwnerKind, owner: Owner) {
    match kind
    case NodeOwner(max) => owner.Node? && owner.node <= max
    case InstanceOwner => owner.Instance? && IsToken(owner.instance)
  }

  /**
    The credentials a list can carry. A secret may hold any text, colons and
    equals signs included, except a comma or trailing white space.
    */
  predicate Valid(kind: OwnerKind, c: Credential) {
    && ValidOwner(kind, c.owner)
    && IsToken(c.id)
    && 0 < c.version <= MAX_U64
    && c.secret != "" && ',' !in c.secret && !EndsBlank(c.secret)
  }

  // ---------------------------------------------------------------- parsing

  function ParseOwner(kind: OwnerKind, raw: string): (r: Option<Owner>)
    ensures r.Some? ==> ValidOwner(kind, r.value)
  {
    match kind
    case NodeOwner(max) =>
      (match ParseUnsigned(Trim(raw), max)
       case None => None
       case Some(n) => Some(Node(n)))
    case InstanceOwner =>
      if IsToken(Trim(raw)) then Some(Instance(Trim(raw))) else None
  }

  /** Splits at the first two colons; a missing piece reads as empty text. */
  function SplitCredential(raw: string): (r: (string, string, string))
    ensures !EndsBlank(raw) ==> !EndsBlank(r.2)
    ensures ',' !in raw ==> ',' !in r.2
  {
    match SplitOnce(raw, ':')
    case None => (raw, "", "")
    case Some((id, rest)) =>
      match SplitOnce(rest, ':')
      case None => (id, rest, "")
      case Some((version, secret)) => (id, version, secret)
  }

  function ParseOwnedCredential(owner: Owner, raw: string): (r: Result<Credential, CredentialError>)
    ensures r.Ok? && !EndsBlank(raw) ==>
              forall kind | ValidOwner(kind, owner) :: Valid(kind, r.value)
  {
    var (rawId, rawVersion, secret) := SplitCredential(raw);
    var id := Trim(rawId);
    if !IsToken(id) then Err(CredentialIdInvalid)
    else match ParseUnsigned(Trim(rawVersion), MAX_U64)
    case None => Err(VersionInvalid)
    case Some(version) =>
      if version == 0 then Err(VersionZero)
      else if secret == "" || ',' in secret then Err(SecretInvalid)
      else Ok(Credential(owner, id, version, secret))
  }

  /** Every accepted entry is a valid credential, whatever its raw text was. */
  function ParseEntry(kind: OwnerKind, raw: string): (r: Result<Credential, CredentialError>)
    ensures r.Ok? ==> Valid(kind, r.value)
  {
    var trimmed := Trim(raw);
    if trimmed == "" then Err(EntryEmpty)
    else match SplitOnce(trimmed, '=')
    case None => Err(OwnerSeparatorMissing)
    case Some((rawOwner, rawCredential)) =>
      match ParseOwner(kind, rawOwner)
      case None => Err(OwnerInvalid)
      case Some(owner) => ParseOwnedCredential(owner, rawCredential)
  }

  predicate SameIdentity(a: Credential, b: Credential) {
    IdentityOf(a) == IdentityOf(b)
  }

  function Duplicate(seen: seq<Credential>, c: Credential): (r: Option<CredentialError>)
    ensures r.None? <==> forall i :: 0 <= i < |seen| ==> !SameIdentity(seen[i], c)
  {
    KeysMember(IdentityOf, seen, IdentityOf(c));
    if IdentityOf(c) in Keys(IdentityOf, seen) then Some(IdentityDuplicate) else None
  }

  function CredentialGrammar(kind: OwnerKind): (g: Grammar<Credential, CredentialError>)
    ensures Coherent(g)
    ensures KeyedBy(g, IdentityOf, IdentityDuplicate)
  {
    Grammar(raw => ParseEntry(kind, raw), Duplicate, SameIdentity)
  }

  predicate OwnerLess(a: Owner, b: Owner) {
    match (a, b)
    case (Node(m), Node(n)) => m < n
    case (Instance(s), Instance(t)) => TextLess(s, t)
    case (Node(_), Instance(_)) => true
    case (Instance(_), Node(_)) => false
  }

  /** Owner first, then credential id, then version. */
  predicate IdentityLess(a: Credential, b: Credential) {
    || OwnerLess(a.owner, b.owner)
    || (a.owner == b.owner && TextLess(a.id, b.id))
    || (a.owner == b.owner && a.id == b.id && a.version < b.version)
  }

  /** What a credential-list setting means. */
  function ParseList(kind: OwnerKind, value: Option<string>)
    : Result<seq<Credential>, ListError<CredentialError>>
  {
    match value
    case None => Ok([])
    case Some(text) =>
      if Trim(text) == "" then Err(EmptyList)
      else
        var entries :- Collect(CredentialGrammar(kind), Split(text, ','));
        Ok(Sort(IdentityLess, entries))
  }

  method ParseCredentials(kind: OwnerKind, value: Option<string>)
    returns (r: Result<seq<Credential>, ListError<CredentialError>>)
    ensures r == ParseList(kind, value)
  {
    if value.None? {
      return Ok([]);
    }
    if Trim(value.value) == "" {
      return Err(EmptyList);
    }
    var entries :- CollectKeyed(CredentialGrammar(kind), IdentityOf, IdentityDuplicate, Split(value.value, ','));
    return Ok(Sort(IdentityLess, entries));
  }

  // --------------------------------------------------------------- ordering

  lemma OwnerLessOrder(a: Owner, b: Owner, c: Owner)
    ensures !OwnerLess(a, a)
    ensures OwnerLess(a, b) && OwnerLess(b, c) ==> OwnerLess(a, c)
    ensures a == b || OwnerLess(a, b) || OwnerLess(b, a)
  {
    if a.Instance? {
      TextLessIrreflexive(a.instance);
      if b.Instance? {
        TextLessTotal(a.instance, b.instance);
        if c.Instance? && OwnerLess(a, b) && OwnerLess(b, c) {
          TextLessTransitive(a.instance, b.instance, c.instance);
        }
      }
    }
  }

  lemma IdentityLessTransitive(a: Credential, b: Credential, c: Credential)
    requires IdentityLess(a, b) && IdentityLess(b, c)
    ensures IdentityLess(a, c)
  {
    OwnerLessOrder(a.owner, b.owner, c.owner);
    if TextLess(a.id, b.id) && TextLess(b.id, c.id) {
      TextLessTransitive(a.id, b.id, c.id);
    }
  }

  lemma IdentityLessOrder()
    ensures StrictOrder(IdentityLess)
  {
    forall a: Credential
      ensures !IdentityLess(a, a)
    {
      OwnerLessOrder(a.owner, a.owner, a.owner);
      TextLessIrreflexive(a.id);
    }
    forall a, b, c | IdentityLess(a, b) && IdentityLess(b, c)
      ensures IdentityLess(a, c)
    {
      IdentityLessTransitive(a, b, c);
    }
  }

  lemma IdentityLessTotal(a: Credential, b: Credential)
    ensures SameIdentity(a, b) || IdentityLess(a, b) || IdentityLess(b, a)
  {
    OwnerLessOrder(a.owner, b.owner, a.owner);
    TextLessTotal(a.id, b.id);
  }

  lemma DistinctSeparated(cs: seq<Credential>)
    requires PairwiseFree(SameIdentity, cs)
    ensures Separated(IdentityLess, cs)
  {
    forall i, j | 0 <= i < j < |cs|
      ensures IdentityLess(cs[i], cs[j]) || IdentityLess(cs[j], cs[i])
    {
      IdentityLessTotal(cs[i], cs[j]);
    }
  }

  /**
    Every accepted list is strictly increasing in owner, id and version, and
    is a rearrangement of the entries as written.
    */
  lemma AcceptedIsStrictlySorted(kind: OwnerKind, text: string)
    requires ParseList(kind, Some(text)).Ok?
    ensures StrictlySorted(IdentityLess, ParseList(kind, Some(text)).value)
    ensures Collect(CredentialGrammar(kind), Split(text, ',')).Ok?
    ensures Permuted(ParseList(kind, Some(text)).value,
                     Collect(CredentialGrammar(kind), Split(text, ',')).value)
  {
    var g := CredentialGrammar(kind);
    var parts := Split(text, ',');
    CollectSound(g, parts);
    DistinctSeparated(Collect(g, parts).value);
    IdentityLessOrder();
    SortSorts(IdentityLess, Collect(g, parts).value);
  }

  /** A text that is white space throughout has no comma and no readable entry. */
  lemma BlankTextIsRejected(kind: OwnerKind, text: string)
    requires Trim(text) == ""
    ensures Collect(CredentialGrammar(kind), Split(text, ',')).Err?
  {
    BlankIsOnePiece(text, ',');
    assert ParseEntry(kind, text).Err?;
    CollectStep(CredentialGrammar(kind), [text], 0, []);
    assert [text][..1] == [text];
  }

  /**
    Permuting the comma-separated entries changes neither acceptance nor the
    resulting list.
    */
  lemma OrderIndependent(kind: OwnerKind, text: string, text': string)
    requires Permuted(Split(text, ','), Split(text', ','))
    ensures ParseList(kind, Some(text)).ToOption() == ParseList(kind, Some(text')).ToOption()
  {
    if ParseList(kind, Some(text)).Ok? {
      OrderIndependentOneWay(kind, text, text');
    } else if ParseList(kind, Some(text')).Ok? {
      OrderIndependentOneWay(kind, text', text);
    }
  }

  lemma OrderIndependentOneWay(kind: OwnerKind, text: string, text': string)
    requires Permuted(Split(text, ','), Split(text', ','))
    requires ParseList(kind, Some(text)).Ok?
    ensures ParseList(kind, Some(text')) == ParseList(kind, Some(text))
  {
    CollectPermuted(CredentialGrammar(kind), Split(text, ','), Split(text', ','));
    if Trim(text') == "" {
      BlankTextIsRejected(kind, text');
    }
    AcceptedIsStrictlySorted(kind, text);
    AcceptedIsStrictlySorted(kind, text');
    IdentityLessOrder();
    SortedUnique(IdentityLess, ParseList(kind, Some(text)).value, ParseList(kind, Some(text')).value);
  }

  // ------------------------------------------------------------- round trip

  function PrintOwner(owner: Owner): string {
    match owner
    case Node(n) => PrintNat(n)
    case Instance(s) => s
  }

  function PrintEntry(c: Credential): string {
    PrintOwner(c.owner) + ['='] + (c.id + [':'] + (PrintNat(c.version) + [':'] + c.secret))
  }

  function PrintList(cs: seq<Credential>): string {
    Join(Map(PrintEntry, cs), ',')
  }

  lemma PrintOwnerParses(kind: OwnerKind, owner: Owner)
    requires ValidOwner(kind, owner)
    ensures ParseOwner(kind, PrintOwner(owner)) == Some(owner)
    ensures PrintOwner(owner) != "" && !IsWhitespace(PrintOwner(owner)[0])
    ensures '=' !in PrintOwner(owner) && ',' !in PrintOwner(owner)
  {
    match owner
    case Node(n) =>
      PrintNatParses(n, kind.maxNode);
      DigitsAreTight(PrintNat(n));
    case Instance(s) =>
      TokenIsTight(s);
  }

  lemma TokenIsTight(s: string)
    requires IsToken(s)
    ensures Tight(s) && ',' !in s && ':' !in s && '=' !in s
  {
  }

  lemma DigitsAreTight(s: string)
    requires s != "" && AllDigits(s)
    ensures Tight(s) && ',' !in s && ':' !in s && '=' !in s
  {
    assert IsDigit(s[0]) && IsDigit(s[|s| - 1]);
  }

  lemma SplitPrintedCredential(c: Credential)
    requires IsToken(c.id)
    ensures SplitCredential(c.id + [':'] + (PrintNat(c.version) + [':'] + c.secret))
         == (c.id, PrintNat(c.version), c.secret)
  {
    TokenIsTight(c.id);
    DigitsAreTight(PrintNat(c.version));
    SplitOnceOfConcat(c.id, ':', PrintNat(c.version) + [':'] + c.secret);
    SplitOnceOfConcat(PrintNat(c.version), ':', c.secret);
  }

  lemma PrintedEntryIsTight(kind: OwnerKind, c: Credential)
    requires Valid(kind, c)
    ensures Tight(PrintEntry(c)) && ',' !in PrintEntry(c)
  {
    PrintOwnerParses(kind, c.owner);
    TokenIsTight(c.id);
    DigitsAreTight(PrintNat(c.version));
    var text := PrintEntry(c);
    assert text[0] == PrintOwner(c.owner)[0];
    assert text[|text| - 1] == c.secret[|c.secret| - 1];
  }

  lemma PrintedCredentialParses(kind: OwnerKind, c: Credential)
    requires Valid(kind, c)
    ensures ParseOwnedCredential(c.owner, c.id + [':'] + (PrintNat(c.version) + [':'] + c.secret)) == Ok(c)
  {
    SplitPrintedCredential(c);
    TokenIsTight(c.id);
    DigitsAreTight(PrintNat(c.version));
    PrintNatParses(c.version, MAX_U64);
  }

  /** A printed credential reads back as itself and contains no comma. */
  lemma EntryRoundTrip(kind: OwnerKind, c: Credential)
    requires Valid(kind, c)
    ensures ParseEntry(kind, PrintEntry(c)) == Ok(c)
    ensures ',' !in PrintEntry(c)
  {
    var credential := c.id + [':'] + (PrintNat(c.version) + [':'] + c.secret);
    PrintedEntryIsTight(kind, c);
    PrintOwnerParses(kind, c.owner);
    SplitOnceOfConcat(PrintOwner(c.owner), '=', credential);
    PrintedCredentialParses(kind, c);
  }

  /** The comma test on secrets never fires: pieces between commas have none. */
  lemma SecretNeverHasComma(text: string, i: nat)
    requires i < |Split(text, ',')|
    ensures var trimmed := Trim(Split(text, ',')[i]);
            SplitOnce(trimmed, '=').Some? ==>
              ',' !in SplitCredential(SplitOnce(trimmed, '=').value.1).2
  {
    SplitPieces(text, ',');
    TrimMembers(Split(text, ',')[i], ',');
    var trimmed := Trim(Split(text, ',')[i]);
    if SplitOnce(trimmed, '=').Some? {
      assert ',' !in SplitOnce(trimmed, '=').value.1;
    }
  }

  ghost predicate Printable(kind: OwnerKind, cs: seq<Credential>) {
    && cs != []
    && (forall i :: 0 <= i < |cs| ==> Valid(kind, cs[i]))
    && PairwiseFree(SameIdentity, cs)
  }

  lemma PrintedListCollects(kind: OwnerKind, cs: seq<Credential>)
    requires Printable(kind, cs)
    ensures Split(PrintList(cs), ',') == Map(PrintEntry, cs)
    ensures Collect(CredentialGrammar(kind), Map(PrintEntry, cs)) == Ok(cs)
  {
    var parts := Map(PrintEntry, cs);
    forall i | 0 <= i < |cs|
      ensures ',' !in parts[i] && ParseEntry(kind, parts[i]) == Ok(cs[i])
    {
      EntryRoundTrip(kind, cs[i]);
    }
    SplitJoin(parts, ',');
    CollectComplete(CredentialGrammar(kind), parts, cs);
  }

  lemma CollectedIsPrintable(kind: OwnerKind, parts: seq<string>)
    requires parts != [] && Collect(CredentialGrammar(kind), parts).Ok?
    ensures Printable(kind, Collect(CredentialGrammar(kind), parts).value)
  {
    var entries := Collect(CredentialGrammar(kind), parts).value;
    CollectSound(CredentialGrammar(kind), parts);
    forall i | 0 <= i < |entries|
      ensures Valid(kind, entries[i])
    {
      assert ParseEntry(kind, parts[i]) == Ok(entries[i]);
    }
  }

  lemma PrintablePermuted(kind: OwnerKind, cs: seq<Credential>, cs': seq<Credential>)
    requires Printable(kind, cs) && Permuted(cs, cs')
    ensures Printable(kind, cs')
  {
    PermutedLength(cs, cs');
    PermutedMembers(cs, cs');
    assert forall i :: 0 <= i < |cs'| ==> cs'[i] in cs;
    PairwiseFreePermuted(SameIdentity, cs, cs');
  }

  /** Everything the parser accepts can be printed again. */
  lemma AcceptedIsPrintable(kind: OwnerKind, text: string)
    requires ParseList(kind, Some(text)).Ok?
    ensures Printable(kind, ParseList(kind, Some(text)).value)
  {
    var parts := Split(text, ',');
    CollectedIsPrintable(kind, parts);
    PrintablePermuted(kind, Collect(CredentialGrammar(kind), parts).value, ParseList(kind, Some(text)).value);
  }

  /**
    Round trip: printing a list in any order and parsing it gives the list in
    sorted order exactly when the list is non-empty, its credentials are
    valid and their identities are distinct.
    */
  lemma RoundTrip(kind: OwnerKind, cs: seq<Credential>)
    ensures Printable(kind, cs) <==>
            ParseList(kind, Some(PrintList(cs))) == Ok(Sort(IdentityLess, cs))
  {
    var text := PrintList(cs);
    if Printable(kind, cs) {
      PrintedListCollects(kind, cs);
      if Trim(text) == "" {
        BlankTextIsRejected(kind, text);
      }
    }
    if ParseList(kind, Some(text)) == Ok(Sort(IdentityLess, cs)) {
      AcceptedIsPrintable(kind, text);
      PrintablePermuted(kind, Sort(IdentityLess, cs), cs);
    }
  }

  /** Parsing what an accepted list prints gives the accepted list again. */
  lemma ParsePrintParse(kind: OwnerKind, text: string)
    requires ParseList(kind, Some(text)).Ok?
    ensures var parsed := ParseList(kind, Some(text));
            ParseList(kind, Some(PrintList(parsed.value))) == parsed
  {
    var cs := ParseList(kind, Some(text)).value;
    AcceptedIsPrintable(kind, text);
    RoundTrip(kind, cs);
    AcceptedIsStrictlySorted(kind, text);
    AcceptedIsStrictlySorted(kind, PrintList(cs));
    IdentityLessOrder();
    SortedUnique(IdentityLess, Sort(IdentityLess, cs), cs);
  }
}
