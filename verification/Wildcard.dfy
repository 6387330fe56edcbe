/**
  Wildcard matching of policy patterns: the row-by-row table the server
  fills, against what the wildcards mean.
  */
module Wildcard {
  import opened Sequences

  /** A pattern text; wildcards at the escaped positions stand for themselves. */
  datatype Pattern = Pattern(text: string, escaped: set<nat>)

  datatype Token = Literal(c: char) | AnyOne | AnyRun

  function TokenAt(p: Pattern, i: nat): Token
    requires i < |p.text|
  {
    if p.text[i] == '*' && i !in p.escaped then AnyRun
    else if p.text[i] == '?' && i !in p.escaped then AnyOne
    else Literal(p.text[i])
  }

  /** What one token may stand for. */
  predicate Stands(token: Token, piece: string) {
    match token
    case Literal(c) => piece == [c]
    case AnyOne => |piece| == 1
    case AnyRun => true
  }

  /** The value splits into one piece per token, each piece fitting its token. */
  ghost predicate Fits(p: Pattern, value: string) {
    exists pieces: seq<string> :: Splits(p, |p.text|, pieces, value)
  }

  ghost predicate Splits(p: Pattern, n: nat, pieces: seq<string>, value: string)
    requires n <= |p.text|
  {
    && |pieces| == n
    && Flatten(pieces) == value
    && forall i :: 0 <= i < n ==> Stands(TokenAt(p, i), pieces[i])
  }

  /** Whether the first `n` tokens cover the first `m` characters. */
  ghost predicate Covers(p: Pattern, value: string, n: nat, m: nat)
    requires n <= |p.text| && m <= |value|
    decreases n, 0
  {
    if n == 0 then m == 0
    else match TokenAt(p, n - 1)
    case Literal(c) => m > 0 && value[m - 1] == c && Covers(p, value, n - 1, m - 1)
    case AnyOne => m > 0 && Covers(p, value, n - 1, m - 1)
    case AnyRun => CoversSome(p, value, n - 1, m)
  }

  /** Whether the first `n` tokens cover some prefix of the first `m` characters. */
  ghost predicate CoversSome(p: Pattern, value: string, n: nat, m: nat)
    requires n <= |p.text| && m <= |value|
    decreases n, 1
  {
    exists k :: 0 <= k <= m && Covers(p, value, n, k)
  }

  lemma {:induction false} CoversSplits(p: Pattern, value: string, n: nat, m: nat) returns (pieces: seq<string>)
    requires n <= |p.text| && m <= |value| && Covers(p, value, n, m)
    ensures Splits(p, n, pieces, value[..m])
    decreases n
  {
    if n == 0 {
      pieces := [];
    } else {
      var k := m - 1;
      if TokenAt(p, n - 1) == AnyRun {
        assert CoversSome(p, value, n - 1, m);
        k :| 0 <= k <= m && Covers(p, value, n - 1, k);
      }
      var init := CoversSplits(p, value, n - 1, k);
      pieces := init + [value[k..m]];
      FlattenAppend(init, value[k..m]);
      assert value[..k] + value[k..m] == value[..m];
    }
  }

  lemma {:induction false} SplitsCovers(p: Pattern, value: string, n: nat, m: nat, pieces: seq<string>)
    requires n <= |p.text| && m <= |value| && Splits(p, n, pieces, value[..m])
    ensures Covers(p, value, n, m)
    decreases n
  {
    if n > 0 {
      var init, last := pieces[..n - 1], pieces[n - 1];
      assert pieces == init + [last];
      FlattenAppend(init, last);
      var k := m - |last|;
      assert value[..m] == Flatten(init) + last;
      assert value[..k] == value[..m][..k] == Flatten(init);
      assert last == value[..m][k..];
      SplitsCovers(p, value, n - 1, k, init);
      assert Stands(TokenAt(p, n - 1), last);
    }
  }

  /** The table's last cell answers exactly whether the value fits. */
  lemma CoversIsFits(p: Pattern, value: string)
    ensures Covers(p, value, |p.text|, |value|) <==> Fits(p, value)
  {
    assert value[..|value|] == value;
    if Covers(p, value, |p.text|, |value|) {
      var pieces := CoversSplits(p, value, |p.text|, |value|);
    }
    if Fits(p, value) {
      var pieces: seq<string> :| Splits(p, |p.text|, pieces, value);
      SplitsCovers(p, value, |p.text|, |value|, pieces);
    }
  }

  ghost predicate IsRow(p: Pattern, value: string, n: nat, row: seq<bool>)
    requires n <= |p.text|
  {
    |row| == |value| + 1 && forall m :: 0 <= m <= |value| ==> (row[m] <==> Covers(p, value, n, m))
  }

  /** A run reaches a cell from the cell above it or the cell before it. */
  lemma RunStep(p: Pattern, value: string, n: nat, m: nat)
    requires 0 < n <= |p.text| && 0 < m <= |value| && TokenAt(p, n - 1) == AnyRun
    ensures Covers(p, value, n, m) <==> Covers(p, value, n - 1, m) || Covers(p, value, n, m - 1)
  {
    SomeStep(p, value, n - 1, m);
  }

  lemma SomeStep(p: Pattern, value: string, n: nat, m: nat)
    requires n <= |p.text| && 0 < m <= |value|
    ensures CoversSome(p, value, n, m) <==> Covers(p, value, n, m) || CoversSome(p, value, n, m - 1)
  {
  }

  method NextRow(p: Pattern, value: string, n: nat, previous: array<bool>) returns (current: array<bool>)
    requires n < |p.text| && IsRow(p, value, n, previous[..])
    ensures fresh(current) && IsRow(p, value, n + 1, current[..])
  {
    current := new bool[|value| + 1](_ => false);
    match TokenAt(p, n) {
      case AnyRun =>
        current[0] := previous[0];
        for m := 1 to |value| + 1
          invariant current[0] == previous[0]
          invariant forall k :: 0 <= k < m ==> (current[k] <==> Covers(p, value, n + 1, k))
        {
          RunStep(p, value, n + 1, m);
          assert previous[..][m] == previous[m];
          current[m] := previous[m] || current[m - 1];
        }
      case AnyOne =>
        forall m | 1 <= m <= |value| {
          current[m] := previous[m - 1];
        }
        forall m | 1 <= m <= |value|
          ensures current[m] <==> Covers(p, value, n + 1, m)
        {
          assert previous[..][m - 1] == previous[m - 1];
        }
      case Literal(c) =>
        for m := 0 to |value|
          invariant !current[0]
          invariant forall k :: 0 <= k <= m ==> (current[k] <==> Covers(p, value, n + 1, k))
          invariant forall k :: m < k <= |value| ==> !current[k]
        {
          assert previous[..][m] == previous[m];
          if value[m] == c && previous[m] {
            current[m + 1] := true;
          }
        }
    }
  }

  /** The matcher: one table row per pattern character. */
  method WildcardMatches(p: Pattern, value: string) returns (matched: bool)
    ensures matched <==> Fits(p, value)
  {
    var previous := new bool[|value| + 1](_ => false);
    previous[0] := true;
    for n := 0 to |p.text|
      invariant IsRow(p, value, n, previous[..])
    {
      previous := NextRow(p, value, n, previous);
    }
    CoversIsFits(p, value);
    matched := previous[|value|];
    assert matched == previous[..][|value|];
  }
}
