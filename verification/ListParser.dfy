/**
  The shape shared by every comma-separated setting: entries are read from
  left to right, each entry is parsed on its own, and an entry that clashes
  with an earlier one is refused.
  */
module ListParser {
  import opened Common
  import opened Sequences

  /** `entry` is the position of the offending entry, counted from one. */
  datatype ListError<+E> = EmptyList | BadEntry(entry: nat, reason: E)

  datatype Grammar<!T, !E> = Grammar(
    parse: string -> Result<T, E>,
    clash: (seq<T>, T) -> Option<E>,
    conflict: (T, T) -> bool)

  /** `clash` refuses an entry exactly when it conflicts with an earlier one. */
  ghost predicate Coherent<T(!new), E>(g: Grammar<T, E>) {
    && (forall a, b :: g.conflict(a, b) ==> g.conflict(b, a))
    && (forall seen: seq<T>, t: T ::
          g.clash(seen, t).None? <==> forall i :: 0 <= i < |seen| ==> !g.conflict(seen[i], t))
  }

  /** The entries in input order, or the first error met. */
  function Collect<T, E>(g: Grammar<T, E>, parts: seq<string>): Result<seq<T>, ListError<E>> {
    if parts == [] then Ok([])
    else
      var seen :- Collect(g, parts[..|parts| - 1]);
      match g.parse(parts[|parts| - 1])
      case Err(e) => Err(BadEntry(|parts|, e))
      case Ok(t) =>
        match g.clash(seen, t)
        case Some(e) => Err(BadEntry(|parts|, e))
        case None => Ok(seen + [t])
  }

  ghost predicate ParsesTo<T, E>(g: Grammar<T, E>, parts: seq<string>, ts: seq<T>) {
    |parts| == |ts| && forall i :: 0 <= i < |parts| ==> g.parse(parts[i]) == Ok(ts[i])
  }

  /** A rejected prefix rejects the whole list, with the same error. */
  lemma {:induction false} PrefixErrorWins<T, E>(g: Grammar<T, E>, parts: seq<string>, n: nat)
    requires n <= |parts| && Collect(g, parts[..n]).Err?
    ensures Collect(g, parts) == Collect(g, parts[..n])
    decreases |parts|
  {
    if n == |parts| {
      assert parts[..n] == parts;
    } else {
      var init := parts[..|parts| - 1];
      assert init[..n] == parts[..n];
      PrefixErrorWins(g, init, n);
    }
  }

  /** A reported error names the first entry that is bad after the ones before it. */
  lemma {:induction false} ErrorIsFirst<T, E>(g: Grammar<T, E>, parts: seq<string>)
    requires Collect(g, parts).Err?
    ensures var error := Collect(g, parts).error;
            && error.BadEntry? && 0 < error.entry <= |parts| && Collect(g, parts[..error.entry - 1]).Ok?
            && match g.parse(parts[error.entry - 1])
               case Err(e) => e == error.reason
               case Ok(t) => g.clash(Collect(g, parts[..error.entry - 1]).value, t) == Some(error.reason)
  {
    var n := |parts| - 1;
    if Collect(g, parts[..n]).Err? {
      ErrorIsFirst(g, parts[..n]);
      var k := Collect(g, parts).error.entry - 1;
      assert parts[..n][..k] == parts[..k];
    }
  }

  /** How one more entry changes the outcome. */
  lemma CollectStep<T, E>(g: Grammar<T, E>, parts: seq<string>, i: nat, seen: seq<T>)
    requires i < |parts| && Collect(g, parts[..i]) == Ok(seen)
    ensures Collect(g, parts[..i + 1]) ==
            match g.parse(parts[i])
            case Err(e) => Err(BadEntry(i + 1, e))
            case Ok(t) =>
              match g.clash(seen, t)
              case Some(e) => Err(BadEntry(i + 1, e))
              case None => Ok(seen + [t])
  {
    assert parts[..i + 1][..i] == parts[..i];
  }

  lemma {:induction false} CollectSound<T(!new), E>(g: Grammar<T, E>, parts: seq<string>)
    requires Coherent(g)
    requires Collect(g, parts).Ok?
    ensures ParsesTo(g, parts, Collect(g, parts).value)
    ensures PairwiseFree(g.conflict, Collect(g, parts).value)
  {
    if parts != [] {
      CollectSound(g, parts[..|parts| - 1]);
    }
  }

  lemma {:induction false} CollectComplete<T(!new), E>(g: Grammar<T, E>, parts: seq<string>, ts: seq<T>)
    requires Coherent(g)
    requires ParsesTo(g, parts, ts) && PairwiseFree(g.conflict, ts)
    ensures Collect(g, parts) == Ok(ts)
  {
    if parts != [] {
      var n := |parts| - 1;
      CollectComplete(g, parts[..n], ts[..n]);
      assert g.clash(ts[..n], ts[n]).None?;
      assert ts == ts[..n] + [ts[n]];
    } else {
      assert ts == [];
    }
  }

  /** The keys of the entries read so far. */
  function Keys<T, K(==)>(key: T -> K, entries: seq<T>): set<K> {
    if entries == [] then {}
    else Keys(key, entries[..|entries| - 1]) + {key(entries[|entries| - 1])}
  }

  lemma {:induction false} KeysMember<T, K>(key: T -> K, entries: seq<T>, k: K)
    ensures k in Keys(key, entries) <==> exists i :: 0 <= i < |entries| && key(entries[i]) == k
  {
    if entries != [] {
      var n := |entries| - 1;
      KeysMember(key, entries[..n], k);
      if k in Keys(key, entries[..n]) {
        var i :| 0 <= i < n && key(entries[..n][i]) == k;
        assert key(entries[i]) == k;
      } else if key(entries[n]) != k {
        assert forall i :: 0 <= i < n ==> entries[i] == entries[..n][i];
      }
    }
  }

  lemma KeysAppend<T, K>(key: T -> K, entries: seq<T>, t: T)
    ensures Keys(key, entries + [t]) == Keys(key, entries) + {key(t)}
  {
    assert (entries + [t])[..|entries|] == entries;
  }

  /** Grammars whose only clash is a repeated key. */
  ghost predicate KeyedBy<T(!new), E, K>(g: Grammar<T, E>, key: T -> K, duplicate: E) {
    forall seen: seq<T>, t: T ::
      g.clash(seen, t) == if key(t) in Keys(key, seen) then Some(duplicate) else None
  }

  /** The reading loop: a growing entry list and a set of the keys seen. */
  method CollectKeyed<T(!new), E, K(==)>(g: Grammar<T, E>, key: T -> K, duplicate: E, parts: seq<string>)
    returns (r: Result<seq<T>, ListError<E>>)
    requires KeyedBy(g, key, duplicate)
    ensures r == Collect(g, parts)
  {
    var entries: seq<T> := [];
    var seen: set<K> := {};
    for i := 0 to |parts|
      invariant Collect(g, parts[..i]) == Ok(entries)
      invariant seen == Keys(key, entries)
    {
      CollectStep(g, parts, i, entries);
      var parsed := g.parse(parts[i]);
      if parsed.Err? {
        PrefixErrorWins(g, parts, i + 1);
        return Err(BadEntry(i + 1, parsed.error));
      }
      var entry := parsed.value;
      if key(entry) in seen {
        PrefixErrorWins(g, parts, i + 1);
        return Err(BadEntry(i + 1, duplicate));
      }
      KeysAppend(key, entries, entry);
      seen := seen + {key(entry)};
      entries := entries + [entry];
    }
    assert parts[..|parts|] == parts;
    return Ok(entries);
  }

  /** Grammars that refuse a repeated key first and a repeated mark second. */
  ghost predicate KeyedAndMarkedBy<T(!new), E, K, M>(
    g: Grammar<T, E>, key: T -> K, mark: T -> M, duplicateKey: E, duplicateMark: E)
  {
    forall seen: seq<T>, t: T ::
      g.clash(seen, t) ==
      if key(t) in Keys(key, seen) then Some(duplicateKey)
      else if mark(t) in Keys(mark, seen) then Some(duplicateMark)
      else None
  }

  /** The map from keys to values that inserting every entry leaves. */
  function Table<T, K(==), V>(key: T -> K, value: T -> V, entries: seq<T>): (m: map<K, V>)
    ensures m.Keys == Keys(key, entries)
  {
    if entries == [] then map[]
    else
      var last := entries[|entries| - 1];
      Table(key, value, entries[..|entries| - 1])[key(last) := value(last)]
  }

  /** The reading loop for entries kept in a map by key, with a set of marks. */
  method CollectMarked<T(!new), E, K(==), V, M(==)>(
    g: Grammar<T, E>, key: T -> K, value: T -> V, mark: T -> M,
    duplicateKey: E, duplicateMark: E, parts: seq<string>)
    returns (r: Result<map<K, V>, ListError<E>>)
    requires KeyedAndMarkedBy(g, key, mark, duplicateKey, duplicateMark)
    ensures match Collect(g, parts)
            case Err(e) => r == Err(e)
            case Ok(entries) => r == Ok(Table(key, value, entries))
  {
    var byKey: map<K, V> := map[];
    var marks: set<M> := {};
    ghost var entries: seq<T> := [];
    for i := 0 to |parts|
      invariant Collect(g, parts[..i]) == Ok(entries)
      invariant byKey == Table(key, value, entries) && marks == Keys(mark, entries)
    {
      CollectStep(g, parts, i, entries);
      var parsed := g.parse(parts[i]);
      if parsed.Err? {
        PrefixErrorWins(g, parts, i + 1);
        return Err(BadEntry(i + 1, parsed.error));
      }
      var entry := parsed.value;
      if key(entry) in byKey.Keys {
        PrefixErrorWins(g, parts, i + 1);
        return Err(BadEntry(i + 1, duplicateKey));
      }
      if mark(entry) in marks {
        PrefixErrorWins(g, parts, i + 1);
        return Err(BadEntry(i + 1, duplicateMark));
      }
      KeysAppend(mark, entries, entry);
      assert (entries + [entry])[..|entries|] == entries;
      byKey := byKey[key(entry) := value(entry)];
      marks := marks + {mark(entry)};
      entries := entries + [entry];
    }
    assert parts[..|parts|] == parts;
    return Ok(byKey);
  }

  lemma RemoveAtParses<T, E>(g: Grammar<T, E>, parts: seq<string>, ts: seq<T>, j: nat)
    requires ParsesTo(g, parts, ts) && j < |parts|
    ensures ParsesTo(g, RemoveAt(parts, j), RemoveAt(ts, j))
  {
    var parts', ts' := RemoveAt(parts, j), RemoveAt(ts, j);
    assert forall i :: 0 <= i < |parts'| ==>
      if i < j then parts'[i] == parts[i] && ts'[i] == ts[i]
      else parts'[i] == parts[i + 1] && ts'[i] == ts[i + 1];
  }

  /** Rearranged entries parse to the rearranged values. */
  lemma {:induction false} ParsesPermuted<T, E>(
    g: Grammar<T, E>, parts: seq<string>, ts: seq<T>, parts': seq<string>) returns (ts': seq<T>)
    requires ParsesTo(g, parts, ts) && Permuted(parts, parts')
    ensures ParsesTo(g, parts', ts') && Permuted(ts, ts')
    decreases |parts'|
  {
    PermutedLength(parts, parts');
    if parts' == [] {
      return [];
    }
    var j := PermutedHead(parts, parts');
    RemoveAtParses(g, parts, ts, j);
    var rest := ParsesPermuted(g, RemoveAt(parts, j), RemoveAt(ts, j), parts'[1..]);
    PermutedAddHead(ts, j, rest);
    ts' := [ts[j]] + rest;
  }

  /**
    Order independence: rearranging the entries changes neither acceptance
    nor the collected entries, up to their order.
    */
  lemma CollectPermuted<T(!new), E>(g: Grammar<T, E>, parts: seq<string>, parts': seq<string>)
    requires Coherent(g) && Permuted(parts, parts')
    requires Collect(g, parts).Ok?
    ensures Collect(g, parts').Ok?
    ensures Permuted(Collect(g, parts).value, Collect(g, parts').value)
  {
    CollectSound(g, parts);
    var ts := Collect(g, parts).value;
    var ts' := ParsesPermuted(g, parts, ts, parts');
    PairwiseFreePermuted(g.conflict, ts, ts');
    CollectComplete(g, parts', ts');
  }
}
