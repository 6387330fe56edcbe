/** Facts about sequences, permutations and sorting that the parsers rest on. */
module Sequences {

  function Map<A, B>(f: A -> B, s: seq<A>): (r: seq<B>)
    ensures |r| == |s|
    ensures forall i :: 0 <= i < |s| ==> r[i] == f(s[i])
  {
    if s == [] then [] else [f(s[0])] + Map(f, s[1..])
  }

  lemma MapAppend<A, B>(f: A -> B, s: seq<A>, x: A)
    ensures Map(f, s + [x]) == Map(f, s) + [f(x)]
  {
  }

  lemma MapLastMember<A, B>(f: A -> B, s: seq<A>, y: B)
    requires s != []
    ensures y in Map(f, s) <==> y in Map(f, s[..|s| - 1]) || y == f(s[|s| - 1])
  {
    var n := |s| - 1;
    assert s == s[..n] + [s[n]];
    MapAppend(f, s[..n], s[n]);
  }

  function Flatten<A>(parts: seq<seq<A>>): (r: seq<A>) {
    if parts == [] then [] else parts[0] + Flatten(parts[1..])
  }

  lemma {:induction false} FlattenAppend<A>(parts: seq<seq<A>>, last: seq<A>)
    ensures Flatten(parts + [last]) == Flatten(parts) + last
  {
    if parts == [] {
      assert parts + [last] == [last];
    } else {
      assert (parts + [last])[1..] == parts[1..] + [last];
      FlattenAppend(parts[1..], last);
    }
  }

  /** An element is in the flattening exactly when it is in one of the parts. */
  lemma {:induction false} FlattenMembers<A>(parts: seq<seq<A>>, x: A)
    ensures x in Flatten(parts) <==> exists i :: 0 <= i < |parts| && x in parts[i]
  {
    if parts != [] {
      FlattenMembers(parts[1..], x);
      if x in parts[0] {
        assert x in Flatten(parts);
      } else if x in Flatten(parts[1..]) {
        var i :| 0 <= i < |parts[1..]| && x in parts[1..][i];
        assert x in parts[i + 1];
      }
      forall i | 0 < i < |parts| && x in parts[i]
        ensures x in Flatten(parts)
      {
        assert x in parts[1..][i - 1];
      }
    }
  }

  function RemoveAt<A>(s: seq<A>, i: nat): (r: seq<A>)
    requires i < |s|
    ensures |r| == |s| - 1
    ensures multiset(r) == multiset(s) - multiset{s[i]}
  {
    assert s == s[..i] + [s[i]] + s[i + 1..];
    s[..i] + s[i + 1..]
  }

  /** Sequences with the same elements, counted with multiplicity. */
  ghost predicate Permuted<A>(s: seq<A>, t: seq<A>) {
    multiset(s) == multiset(t)
  }

  lemma PermutedLength<A>(s: seq<A>, t: seq<A>)
    requires Permuted(s, t)
    ensures |s| == |t|
  {
    assert |multiset(s)| == |s|;
    assert |multiset(t)| == |t|;
  }

  lemma PermutedMembers<A>(s: seq<A>, t: seq<A>)
    requires Permuted(s, t)
    ensures forall x :: x in s <==> x in t
  {
    assert forall x :: x in s <==> x in multiset(s);
    assert forall x :: x in t <==> x in multiset(t);
  }

  /** Where the head of one arrangement sits in the other. */
  lemma PermutedHead<A>(s: seq<A>, t: seq<A>) returns (j: nat)
    requires Permuted(s, t) && t != []
    ensures j < |s| && s[j] == t[0] && Permuted(RemoveAt(s, j), t[1..])
  {
    PermutedMembers(s, t);
    assert t[0] in s;
    j :| 0 <= j < |s| && s[j] == t[0];
    assert t == [t[0]] + t[1..];
    assert multiset(t[1..]) == multiset(t) - multiset{t[0]};
  }

  lemma PermutedAddHead<A>(s: seq<A>, j: nat, rest: seq<A>)
    requires j < |s| && Permuted(RemoveAt(s, j), rest)
    ensures Permuted(s, [s[j]] + rest)
  {
    assert s[j] in multiset(s);
  }

  /** No two positions hold elements in conflict. */
  ghost predicate PairwiseFree<A>(conflict: (A, A) -> bool, s: seq<A>) {
    forall i, j :: 0 <= i < j < |s| ==> !conflict(s[i], s[j])
  }

  lemma TwoOccurrences<A>(s: seq<A>, i: nat, j: nat)
    requires i < j < |s| && s[i] == s[j]
    ensures multiset(s)[s[i]] >= 2
  {
    assert s == s[..j] + [s[j]] + s[j + 1..];
    assert s[i] in s[..j];
  }

  lemma OccurrencePositions<A>(s: seq<A>, x: A) returns (i: nat, j: nat)
    requires multiset(s)[x] >= 2
    ensures i < j < |s| && s[i] == x && s[j] == x
  {
    assert x in multiset(s);
    assert x in s;
    i :| 0 <= i < |s| && s[i] == x;
    var rest := RemoveAt(s, i);
    assert x in multiset(rest);
    assert x in rest;
    j :| 0 <= j < |rest| && rest[j] == x;
    if j < i {
      i, j := j, i;
    } else {
      assert rest[j] == s[j + 1];
      j := j + 1;
    }
  }

  /** Freedom from a symmetric conflict does not depend on the order. */
  lemma PairwiseFreePermuted<A(!new)>(conflict: (A, A) -> bool, s: seq<A>, t: seq<A>)
    requires forall a, b :: conflict(a, b) ==> conflict(b, a)
    requires PairwiseFree(conflict, s) && Permuted(s, t)
    ensures PairwiseFree(conflict, t)
  {
    PermutedMembers(s, t);
    forall i, j | 0 <= i < j < |t|
      ensures !conflict(t[i], t[j])
    {
      if t[i] == t[j] {
        TwoOccurrences(t, i, j);
        var p, q := OccurrencePositions(s, t[i]);
        assert !conflict(s[p], s[q]);
      } else {
        assert t[i] in s && t[j] in s;
        var p :| 0 <= p < |s| && s[p] == t[i];
        var q :| 0 <= q < |s| && s[q] == t[j];
        assert p < q || q < p;
      }
    }
  }

  // ---------------------------------------------------------------- sorting

  ghost predicate StrictOrder<T(!new)>(less: (T, T) -> bool) {
    && (forall a :: !less(a, a))
    && (forall a, b, c :: less(a, b) && less(b, c) ==> less(a, c))
  }

  ghost predicate StrictlySorted<T>(less: (T, T) -> bool, s: seq<T>) {
    forall i, j :: 0 <= i < j < |s| ==> less(s[i], s[j])
  }

  /** Any two different positions hold elements that the order separates. */
  ghost predicate Separated<T>(less: (T, T) -> bool, s: seq<T>) {
    forall i, j :: 0 <= i < j < |s| ==> less(s[i], s[j]) || less(s[j], s[i])
  }

  function Insert<T>(less: (T, T) -> bool, x: T, s: seq<T>): (r: seq<T>)
    ensures multiset(r) == multiset{x} + multiset(s)
  {
    if s == [] then [x]
    else
      assert s == [s[0]] + s[1..];
      if less(s[0], x) then [s[0]] + Insert(less, x, s[1..]) else [x] + s
  }

  function Sort<T>(less: (T, T) -> bool, s: seq<T>): (r: seq<T>)
    ensures Permuted(r, s)
  {
    if s == [] then []
    else
      assert s == [s[0]] + s[1..];
      Insert(less, s[0], Sort(less, s[1..]))
  }

  lemma {:induction false} InsertSorts<T(!new)>(less: (T, T) -> bool, x: T, s: seq<T>)
    requires StrictOrder(less) && StrictlySorted(less, s)
    requires forall y :: y in s ==> less(x, y) || less(y, x)
    ensures StrictlySorted(less, Insert(less, x, s))
  {
    if s != [] {
      if less(s[0], x) {
        InsertSorts(less, x, s[1..]);
        var rest := Insert(less, x, s[1..]);
        forall y | y in rest
          ensures less(s[0], y)
        {
          assert y in multiset(rest);
          assert y == x || y in s[1..];
        }
      } else {
        assert s[0] in s;
        assert less(x, s[0]);
      }
    }
  }

  /** Sorting a sequence whose elements are pairwise separated sorts it strictly. */
  lemma {:induction false} SortSorts<T(!new)>(less: (T, T) -> bool, s: seq<T>)
    requires StrictOrder(less) && Separated(less, s)
    ensures StrictlySorted(less, Sort(less, s))
  {
    if s != [] {
      SortSorts(less, s[1..]);
      PermutedMembers(Sort(less, s[1..]), s[1..]);
      InsertSorts(less, s[0], Sort(less, s[1..]));
    }
  }

  lemma SortedHead<T(!new)>(less: (T, T) -> bool, s: seq<T>, x: T)
    requires StrictlySorted(less, s) && x in s && x != s[0]
    ensures less(s[0], x)
  {
    var i :| 0 <= i < |s| && s[i] == x;
    assert 0 < i;
  }

  lemma SortedHeadsAgree<T(!new)>(less: (T, T) -> bool, s: seq<T>, t: seq<T>)
    requires StrictOrder(less) && StrictlySorted(less, s) && StrictlySorted(less, t)
    requires s != [] && t != [] && s[0] in t && t[0] in s
    ensures s[0] == t[0]
  {
    if s[0] != t[0] {
      SortedHead(less, s, t[0]);
      SortedHead(less, t, s[0]);
      assert false;
    }
  }

  lemma PermutedTails<T>(s: seq<T>, t: seq<T>)
    requires Permuted(s, t) && s != [] && t != [] && s[0] == t[0]
    ensures Permuted(s[1..], t[1..])
  {
    assert s == [s[0]] + s[1..] && t == [t[0]] + t[1..];
    assert multiset(s[1..]) == multiset(s) - multiset{s[0]};
    assert multiset(t[1..]) == multiset(t) - multiset{t[0]};
  }

  /** There is at most one strictly sorted arrangement of the same elements. */
  lemma {:induction false} SortedUnique<T(!new)>(less: (T, T) -> bool, s: seq<T>, t: seq<T>)
    requires StrictOrder(less) && Permuted(s, t)
    requires StrictlySorted(less, s) && StrictlySorted(less, t)
    ensures s == t
  {
    PermutedLength(s, t);
    if s != [] {
      PermutedMembers(s, t);
      assert s[0] in t && t[0] in s;
      SortedHeadsAgree(less, s, t);
      PermutedTails(s, t);
      SortedUnique(less, s[1..], t[1..]);
      assert s == [s[0]] + s[1..] && t == [t[0]] + t[1..];
    }
  }

  /** Strictly sorted sequences with the same members are equal. */
  lemma {:induction false} SortedSameMembers<T(!new)>(less: (T, T) -> bool, s: seq<T>, t: seq<T>)
    requires StrictOrder(less)
    requires StrictlySorted(less, s) && StrictlySorted(less, t)
    requires forall x :: x in s <==> x in t
    ensures s == t
  {
    assert t == [] || t[0] in s;
    if s != [] {
      assert s[0] in t;
      assert t[0] in s;
      SortedHeadsAgree(less, s, t);
      TailMembers(less, s);
      TailMembers(less, t);
      SortedSameMembers(less, s[1..], t[1..]);
      assert s == [s[0]] + s[1..] && t == [t[0]] + t[1..];
    }
  }

  lemma TailMembers<T(!new)>(less: (T, T) -> bool, s: seq<T>)
    requires StrictOrder(less) && StrictlySorted(less, s) && s != []
    ensures forall x :: x in s[1..] <==> x in s && x != s[0]
  {
    assert s[0] !in s[1..] by {
      assert !less(s[0], s[0]);
    }
    assert forall x :: x in s <==> x == s[0] || x in s[1..] by {
      assert s == [s[0]] + s[1..];
    }
  }
}
