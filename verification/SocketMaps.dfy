/**
  Socket maps: comma-separated `node_id=/absolute/socket` entries naming the
  storage nodes of a deployment or the peers of its Raft group. Resolving a
  path against the file system is a partial function supplied by the caller.
  */
module SocketMaps {
  import opened Common
  import opened Sequences
  import opened Text
  import opened ListParser

  datatype Socket = Socket(node: nat, path: string)

  /** An entry while the list is being read, with its resolved path. */
  datatype Entry = Entry(socket: Socket, canonical: string)

  type Resolver = string -> Option<string>

  /** The width of a node id and, for storage maps, the number of nodes. */
  datatype NodeRange = NodeRange(max: nat, count: Option<nat>)

  datatype SocketError =
    | EntryEmpty
    | SeparatorMissing
    | NodeInvalid
    | NodeOutOfRange
    | PathEmpty
    | PathRelative
    | PathUnresolved
    | NodeDuplicate
    | PathDuplicate

  datatype MapError = Required | BadList(error: ListError<SocketError>) | MissingNode(node: nat)

  predicate IsAbsolute(path: string) {
    path != "" && path[0] == '/'
  }

  function ParseSocket(range: NodeRange, resolve: Resolver, raw: string): (r: Result<Entry, SocketError>)
    ensures r.Ok? ==> resolve(r.value.socket.path) == Some(r.value.canonical)
    ensures r.Ok? && range.count.Some? ==> r.value.socket.node < range.count.value
  {
    var trimmed := Trim(raw);
    if trimmed == "" then Err(EntryEmpty)
    else match SplitOnce(trimmed, '=')
    case None => Err(SeparatorMissing)
    case Some((rawNode, rawPath)) =>
      match ParseUnsigned(Trim(rawNode), range.max)
      case None => Err(NodeInvalid)
      case Some(node) =>
        var path := Trim(rawPath);
        if range.count.Some? && range.count.value <= node then Err(NodeOutOfRange)
        else if path == "" then Err(PathEmpty)
        else if !IsAbsolute(path) then Err(PathRelative)
        else match resolve(path)
        case None => Err(PathUnresolved)
        case Some(canonical) => Ok(Entry(Socket(node, path), canonical))
  }

  function NodeOf(e: Entry): nat {
    e.socket.node
  }

  function PathOf(e: Entry): string {
    e.socket.path
  }

  function CanonicalOf(e: Entry): string {
    e.canonical
  }

  predicate Conflict(a: Entry, b: Entry) {
    NodeOf(a) == NodeOf(b) || CanonicalOf(a) == CanonicalOf(b)
  }

  /** A repeated node id is reported before a repeated path. */
  function Clash(seen: seq<Entry>, e: Entry): (r: Option<SocketError>)
    ensures r.None? <==> forall i :: 0 <= i < |seen| ==> !Conflict(seen[i], e)
  {
    KeysMember(NodeOf, seen, NodeOf(e));
    KeysMember(CanonicalOf, seen, CanonicalOf(e));
    if NodeOf(e) in Keys(NodeOf, seen) then Some(NodeDuplicate)
    else if CanonicalOf(e) in Keys(CanonicalOf, seen) then Some(PathDuplicate)
    else None
  }

  function SocketGrammar(range: NodeRange, resolve: Resolver): (g: Grammar<Entry, SocketError>)
    ensures Coherent(g)
    ensures KeyedAndMarkedBy(g, NodeOf, CanonicalOf, NodeDuplicate, PathDuplicate)
  {
    Grammar(raw => ParseSocket(range, resolve, raw), Clash, Conflict)
  }

  predicate NodeLess(a: Socket, b: Socket) {
    a.node < b.node
  }

  function SocketOf(e: Entry): Socket {
    e.socket
  }

  predicate HasNode(sockets: seq<Socket>, node: nat) {
    exists i :: 0 <= i < |sockets| && sockets[i].node == node
  }

  /** The lowest node id from `node` up to `count` that has no socket. */
  function FirstMissing(sockets: seq<Socket>, node: nat, count: nat): (r: Option<nat>)
    requires node <= count
    ensures r.None? <==> forall n :: node <= n < count ==> HasNode(sockets, n)
    decreases count - node
  {
    if node == count then None
    else if !HasNode(sockets, node) then Some(node)
    else FirstMissing(sockets, node + 1, count)
  }

  /** What a socket-map setting means; a complete map covers every node. */
  function ParseMap(range: NodeRange, resolve: Resolver, value: Option<string>, complete: bool)
    : Result<seq<Socket>, MapError>
  {
    match value
    case None => if complete then Err(Required) else Ok([])
    case Some(text) =>
      if Trim(text) == "" then Err(BadList(EmptyList))
      else match Collect(SocketGrammar(range, resolve), Split(text, ','))
      case Err(e) => Err(BadList(e))
      case Ok(entries) =>
        var sockets := Map(SocketOf, entries);
        if complete && range.count.Some? && FirstMissing(sockets, 0, range.count.value).Some?
        then Err(MissingNode(FirstMissing(sockets, 0, range.count.value).value))
        else Ok(Sort(NodeLess, sockets))
  }

  // --------------------------------------------------------------- the loops

  /** Drains the node map in whatever order it is iterated. */
  method Drain(byNode: map<nat, string>) returns (sockets: seq<Socket>)
    ensures forall s :: s in sockets <==> s.node in byNode && byNode[s.node] == s.path
    ensures Separated(NodeLess, sockets)
  {
    var rest := byNode;
    sockets := [];
    while rest != map[]
      invariant forall s :: s in sockets <==>
                            s.node in byNode && byNode[s.node] == s.path && s.node !in rest
      invariant forall n :: n in rest ==> n in byNode && byNode[n] == rest[n]
      invariant Separated(NodeLess, sockets)
      decreases |rest|
    {
      assert rest.Keys != {};
      var n :| n in rest;
      assert forall i :: 0 <= i < |sockets| ==> sockets[i] in sockets && sockets[i].node != n;
      sockets := sockets + [Socket(n, rest[n])];
      var smaller := rest - {n};
      assert rest.Keys == smaller.Keys + {n};
      rest := smaller;
    }
  }

  lemma NodeLessOrder()
    ensures StrictOrder(NodeLess)
  {
  }

  /** Nodes of an accepted entry list are distinct. */
  lemma EntriesSeparated(entries: seq<Entry>)
    requires PairwiseFree(Conflict, entries)
    ensures Separated(NodeLess, Map(SocketOf, entries))
  {
    forall i, j | 0 <= i < j < |entries|
      ensures NodeOf(entries[i]) != NodeOf(entries[j])
    {
      assert !Conflict(entries[i], entries[j]);
    }
  }

  /** The node map of a conflict-free list holds its sockets and no others. */
  lemma {:induction false} TableHoldsSockets(entries: seq<Entry>, s: Socket)
    requires PairwiseFree(Conflict, entries)
    ensures s in Map(SocketOf, entries) <==>
            var byNode := Table(NodeOf, PathOf, entries);
            s.node in byNode && byNode[s.node] == s.path
  {
    if entries != [] {
      var n := |entries| - 1;
      TableHoldsSockets(entries[..n], s);
      MapLastMember(SocketOf, entries, s);
      if s in Map(SocketOf, entries[..n]) {
        EarlierNodeDiffers(entries, s);
      }
    }
  }

  lemma EarlierNodeDiffers(entries: seq<Entry>, s: Socket)
    requires PairwiseFree(Conflict, entries) && entries != []
    requires s in Map(SocketOf, entries[..|entries| - 1])
    ensures s.node != NodeOf(entries[|entries| - 1])
  {
    var n := |entries| - 1;
    var i :| 0 <= i < n && Map(SocketOf, entries[..n])[i] == s;
    assert !Conflict(entries[i], entries[n]);
  }

  /** Whatever order the node map is drained in, sorting gives the same list. */
  lemma DrainOrderIrrelevant(sockets: seq<Socket>, sockets': seq<Socket>)
    requires Separated(NodeLess, sockets) && Separated(NodeLess, sockets')
    requires forall s :: s in sockets <==> s in sockets'
    ensures Sort(NodeLess, sockets) == Sort(NodeLess, sockets')
  {
    NodeLessOrder();
    SortedSockets(sockets);
    SortedSockets(sockets');
    SortedSameMembers(NodeLess, Sort(NodeLess, sockets), Sort(NodeLess, sockets'));
  }

  method CheckComplete(byNode: map<nat, string>, count: nat, ghost sockets: seq<Socket>)
    returns (missing: Option<nat>)
    requires forall s :: s in sockets <==> s.node in byNode && byNode[s.node] == s.path
    ensures missing == FirstMissing(sockets, 0, count)
  {
    for node := 0 to count
      invariant FirstMissing(sockets, 0, count) == FirstMissing(sockets, node, count)
    {
      if node !in byNode {
        assert forall i :: 0 <= i < |sockets| ==> sockets[i] in sockets && sockets[i].node != node;
        return Some(node);
      }
      assert Socket(node, byNode[node]) in sockets;
    }
    return None;
  }

  /** The whole parser, against its meaning. */
  method ParseSockets(range: NodeRange, resolve: Resolver, value: Option<string>, complete: bool)
    returns (r: Result<seq<Socket>, MapError>)
    ensures r == ParseMap(range, resolve, value, complete)
  {
    if value.None? {
      return if complete then Err(Required) else Ok([]);
    }
    if Trim(value.value) == "" {
      return Err(BadList(EmptyList));
    }
    var g := SocketGrammar(range, resolve);
    var parts := Split(value.value, ',');
    var collected := CollectMarked(g, NodeOf, PathOf, CanonicalOf, NodeDuplicate, PathDuplicate, parts);
    if collected.Err? {
      return Err(BadList(collected.error));
    }
    var byNode := collected.value;
    ghost var entries := Collect(g, parts).value;
    ghost var sockets := Map(SocketOf, entries);
    CollectSound(g, parts);
    forall s
      ensures s in sockets <==> s.node in byNode && byNode[s.node] == s.path
    {
      TableHoldsSockets(entries, s);
    }
    if complete && range.count.Some? {
      var missing := CheckComplete(byNode, range.count.value, sockets);
      if missing.Some? {
        return Err(MissingNode(missing.value));
      }
    }
    var drained := Drain(byNode);
    EntriesSeparated(entries);
    DrainOrderIrrelevant(drained, sockets);
    return Ok(Sort(NodeLess, drained));
  }

  // -------------------------------------------------------------- properties

  /** Distinct resolved paths, stated on sockets so that it survives sorting. */
  lemma SocketsDistinct(resolve: Resolver, entries: seq<Entry>, a: Socket, b: Socket)
    requires PairwiseFree(Conflict, entries)
    requires forall i :: 0 <= i < |entries| ==> resolve(PathOf(entries[i])) == Some(CanonicalOf(entries[i]))
    requires a in Map(SocketOf, entries) && b in Map(SocketOf, entries) && a != b
    ensures resolve(a.path).Some? && resolve(a.path) != resolve(b.path)
  {
    var i :| 0 <= i < |entries| && Map(SocketOf, entries)[i] == a;
    var j :| 0 <= j < |entries| && Map(SocketOf, entries)[j] == b;
    assert i < j ==> !Conflict(entries[i], entries[j]);
    assert j < i ==> !Conflict(entries[j], entries[i]);
  }

  lemma SortedSockets(sockets: seq<Socket>)
    requires Separated(NodeLess, sockets)
    ensures StrictlySorted(NodeLess, Sort(NodeLess, sockets))
    ensures forall s :: s in Sort(NodeLess, sockets) <==> s in sockets
  {
    NodeLessOrder();
    SortSorts(NodeLess, sockets);
    PermutedMembers(Sort(NodeLess, sockets), sockets);
  }

  lemma SocketsInRange(range: NodeRange, resolve: Resolver, parts: seq<string>, s: Socket)
    requires Collect(SocketGrammar(range, resolve), parts).Ok?
    requires s in Map(SocketOf, Collect(SocketGrammar(range, resolve), parts).value)
    ensures resolve(s.path).Some?
    ensures range.count.Some? ==> s.node < range.count.value
  {
    var g := SocketGrammar(range, resolve);
    var entries := Collect(g, parts).value;
    CollectSound(g, parts);
    var i :| 0 <= i < |entries| && Map(SocketOf, entries)[i] == s;
    assert ParseSocket(range, resolve, parts[i]) == Ok(entries[i]);
  }

  lemma EntriesResolve(range: NodeRange, resolve: Resolver, parts: seq<string>)
    requires Collect(SocketGrammar(range, resolve), parts).Ok?
    ensures var entries := Collect(SocketGrammar(range, resolve), parts).value;
            && PairwiseFree(Conflict, entries)
            && forall i :: 0 <= i < |entries| ==> resolve(PathOf(entries[i])) == Some(CanonicalOf(entries[i]))
  {
    var g := SocketGrammar(range, resolve);
    CollectSound(g, parts);
    forall i | 0 <= i < |parts|
      ensures var e := Collect(g, parts).value[i];
              resolve(PathOf(e)) == Some(CanonicalOf(e))
    {
      assert ParseSocket(range, resolve, parts[i]) == Ok(Collect(g, parts).value[i]);
    }
  }

  lemma SortedSocketsResolve(range: NodeRange, resolve: Resolver, parts: seq<string>)
    requires Collect(SocketGrammar(range, resolve), parts).Ok?
    ensures var sorted := Sort(NodeLess, Map(SocketOf, Collect(SocketGrammar(range, resolve), parts).value));
            WellFormedMap(range, resolve, sorted)
  {
    var entries := Collect(SocketGrammar(range, resolve), parts).value;
    var sorted := Sort(NodeLess, Map(SocketOf, entries));
    EntriesResolve(range, resolve, parts);
    EntriesSeparated(entries);
    SortedSockets(Map(SocketOf, entries));
    forall i | 0 <= i < |sorted|
      ensures resolve(sorted[i].path).Some?
      ensures range.count.Some? ==> sorted[i].node < range.count.value
    {
      assert sorted[i] in sorted;
      SocketsInRange(range, resolve, parts, sorted[i]);
    }
    forall i, j | 0 <= i < j < |sorted|
      ensures resolve(sorted[i].path) != resolve(sorted[j].path)
    {
      assert sorted[i] in sorted && sorted[j] in sorted && NodeLess(sorted[i], sorted[j]);
      SocketsDistinct(resolve, entries, sorted[i], sorted[j]);
    }
  }

  /** Strictly sorted by node, within range, with distinct resolved paths. */
  ghost predicate WellFormedMap(range: NodeRange, resolve: Resolver, sockets: seq<Socket>) {
    && StrictlySorted(NodeLess, sockets)
    && (forall i :: 0 <= i < |sockets| ==> resolve(sockets[i].path).Some?)
    && (range.count.Some? ==> forall i :: 0 <= i < |sockets| ==> sockets[i].node < range.count.value)
    && (forall i, j :: 0 <= i < j < |sockets| ==> resolve(sockets[i].path) != resolve(sockets[j].path))
  }

  lemma AcceptedMap(range: NodeRange, resolve: Resolver, value: Option<string>, complete: bool)
    requires ParseMap(range, resolve, value, complete).Ok?
    ensures WellFormedMap(range, resolve, ParseMap(range, resolve, value, complete).value)
  {
    if value.Some? {
      SortedSocketsResolve(range, resolve, Split(value.value, ','));
    }
  }

  /** A strictly increasing list that misses nothing below `count` counts up from zero. */
  lemma {:induction false} CoveringMapCounts(sockets: seq<Socket>, count: nat, i: nat)
    requires StrictlySorted(NodeLess, sockets)
    requires forall n :: 0 <= n < count ==> HasNode(sockets, n)
    requires i < count
    ensures i < |sockets| && sockets[i].node == i
  {
    if i > 0 {
      CoveringMapCounts(sockets, count, i - 1);
    }
    assert HasNode(sockets, i);
    var k :| 0 <= k < |sockets| && sockets[k].node == i;
    assert forall a, b :: 0 <= a < b < |sockets| ==> sockets[a].node < sockets[b].node;
    assert i <= k;
  }

  lemma CompleteMapCovers(range: NodeRange, resolve: Resolver, value: Option<string>, n: nat)
    requires range.count.Some? && n < range.count.value
    requires ParseMap(range, resolve, value, true).Ok?
    ensures HasNode(ParseMap(range, resolve, value, true).value, n)
  {
    var unsorted := Map(SocketOf, Collect(SocketGrammar(range, resolve), Split(value.value, ',')).value);
    assert HasNode(unsorted, n);
    PermutedHasNode(unsorted, Sort(NodeLess, unsorted), n);
  }

  lemma PermutedHasNode(sockets: seq<Socket>, sockets': seq<Socket>, n: nat)
    requires HasNode(sockets, n) && Permuted(sockets', sockets)
    ensures HasNode(sockets', n)
  {
    var k :| 0 <= k < |sockets| && sockets[k].node == n;
    PermutedMembers(sockets', sockets);
    assert sockets[k] in sockets';
  }

  /**
    Completeness: an accepted complete storage map has exactly one entry per
    node, entry i belonging to node i.
    */
  lemma CompleteMapCountsUp(max: nat, count: nat, resolve: Resolver, value: Option<string>)
    requires ParseMap(NodeRange(max, Some(count)), resolve, value, true).Ok?
    ensures var sockets := ParseMap(NodeRange(max, Some(count)), resolve, value, true).value;
            |sockets| == count && forall i :: 0 <= i < count ==> sockets[i].node == i
  {
    var range := NodeRange(max, Some(count));
    var sockets := ParseMap(range, resolve, value, true).value;
    AcceptedMap(range, resolve, value, true);
    forall n | 0 <= n < count
      ensures HasNode(sockets, n)
    {
      CompleteMapCovers(range, resolve, value, n);
    }
    CoveringMapIsExact(sockets, count);
  }

  lemma CoveringMapIsExact(sockets: seq<Socket>, count: nat)
    requires StrictlySorted(NodeLess, sockets)
    requires forall n :: 0 <= n < count ==> HasNode(sockets, n)
    requires forall i :: 0 <= i < |sockets| ==> sockets[i].node < count
    ensures |sockets| == count && forall i :: 0 <= i < count ==> sockets[i].node == i
  {
    forall i | 0 <= i < count
      ensures i < |sockets| && sockets[i].node == i
    {
      CoveringMapCounts(sockets, count, i);
    }
    if count > 0 {
      CoveringMapCounts(sockets, count, count - 1);
      assert count < |sockets| ==> sockets[count - 1].node < sockets[count].node;
    } else {
      assert |sockets| > 0 ==> sockets[0].node < count;
    }
  }

  /** Entry order in the setting is irrelevant to acceptance and to the result. */
  lemma MapOrderIndependent(range: NodeRange, resolve: Resolver, text: string, text': string, complete: bool)
    requires Permuted(Split(text, ','), Split(text', ','))
    ensures ParseMap(range, resolve, Some(text), complete).ToOption()
         == ParseMap(range, resolve, Some(text'), complete).ToOption()
  {
    if ParseMap(range, resolve, Some(text), complete).Ok? {
      MapOrderOneWay(range, resolve, text, text', complete);
    } else if ParseMap(range, resolve, Some(text'), complete).Ok? {
      MapOrderOneWay(range, resolve, text', text, complete);
    }
  }

  lemma BlankMapIsRejected(range: NodeRange, resolve: Resolver, text: string)
    requires Trim(text) == ""
    ensures Collect(SocketGrammar(range, resolve), Split(text, ',')).Err?
  {
    BlankIsOnePiece(text, ',');
    CollectStep(SocketGrammar(range, resolve), [text], 0, []);
    assert [text][..1] == [text];
  }

  lemma MapOrderOneWay(range: NodeRange, resolve: Resolver, text: string, text': string, complete: bool)
    requires Permuted(Split(text, ','), Split(text', ','))
    requires ParseMap(range, resolve, Some(text), complete).Ok?
    ensures ParseMap(range, resolve, Some(text'), complete) == ParseMap(range, resolve, Some(text), complete)
  {
    var g := SocketGrammar(range, resolve);
    var parts, parts' := Split(text, ','), Split(text', ',');
    CollectPermuted(g, parts, parts');
    if Trim(text') == "" {
      BlankMapIsRejected(range, resolve, text');
    }
    var entries, entries' := Collect(g, parts).value, Collect(g, parts').value;
    EntriesResolve(range, resolve, parts);
    EntriesResolve(range, resolve, parts');
    EntriesSeparated(entries);
    EntriesSeparated(entries');
    SameSockets(entries, entries');
    DrainOrderIrrelevant(Map(SocketOf, entries), Map(SocketOf, entries'));
    if range.count.Some? {
      SameMissing(Map(SocketOf, entries), Map(SocketOf, entries'), range.count.value);
    }
  }

  lemma SameMissing(sockets: seq<Socket>, sockets': seq<Socket>, count: nat)
    requires forall s :: s in sockets <==> s in sockets'
    ensures FirstMissing(sockets, 0, count).None? <==> FirstMissing(sockets', 0, count).None?
  {
    SameNodes(sockets, sockets');
  }

  lemma SameNodes(sockets: seq<Socket>, sockets': seq<Socket>)
    requires forall s :: s in sockets <==> s in sockets'
    ensures forall n :: HasNode(sockets, n) <==> HasNode(sockets', n)
  {
    forall n | HasNode(sockets, n)
      ensures HasNode(sockets', n)
    {
      var k :| 0 <= k < |sockets| && sockets[k].node == n;
      assert sockets[k] in sockets';
    }
    forall n | HasNode(sockets', n)
      ensures HasNode(sockets, n)
    {
      var k :| 0 <= k < |sockets'| && sockets'[k].node == n;
      assert sockets'[k] in sockets;
    }
  }

  lemma SameSockets(entries: seq<Entry>, entries': seq<Entry>)
    requires Permuted(entries, entries')
    ensures forall s :: s in Map(SocketOf, entries) <==> s in Map(SocketOf, entries')
  {
    PermutedMembers(entries, entries');
    MapMembers(entries, entries');
    MapMembers(entries', entries);
  }

  lemma MapMembers(entries: seq<Entry>, entries': seq<Entry>)
    requires forall e :: e in entries ==> e in entries'
    ensures forall s :: s in Map(SocketOf, entries) ==> s in Map(SocketOf, entries')
  {
    forall s | s in Map(SocketOf, entries)
      ensures s in Map(SocketOf, entries')
    {
      var k :| 0 <= k < |entries| && Map(SocketOf, entries)[k] == s;
      assert entries[k] in entries';
      var m :| 0 <= m < |entries'| && entries'[m] == entries[k];
      assert Map(SocketOf, entries')[m] == s;
    }
  }
}
