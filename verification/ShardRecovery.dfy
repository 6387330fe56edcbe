/** Encoding shards and recovering missing ones, byte position by byte position. */
module ShardRecovery {
  import opened GaloisField
  import opened LinearAlgebra
  import opened MatrixInversion
  import opened ErasureCode

  const MAX_SHARD_SIZE: nat := 0x7FFF_FFFF

  // ------------------------------------------------------------------- shards

  /** The bytes of all shards at one position. */
  function Column(shards: seq<Vector>, p: nat): (c: Vector)
    ensures |c| == |shards|
    ensures forall i :: 0 <= i < |c| && p < |shards[i]| ==> c[i] == shards[i][p]
  {
    seq(|shards|, i requires 0 <= i < |shards| => if p < |shards[i]| then shards[i][p] else ZERO)
  }

  /** A row of coefficients applied at every position. */
  function Combine(row: Vector, shards: seq<Vector>, size: nat): (r: Vector)
    ensures |r| == size && forall p :: 0 <= p < size ==> r[p] == Dot(row, Column(shards, p))
  {
    seq(size, (p: nat) => Dot(row, Column(shards, p)))
  }

  /** The shard of an index, data or parity. */
  function Shard(data: seq<Vector>, size: nat, i: nat): (r: Vector)
    ensures |r| == size
  {
    Combine(EncodingRow(|data|, i), data, size)
  }

  function Shards(data: seq<Vector>, size: nat, indices: seq<nat>): (r: seq<Vector>)
    ensures |r| == |indices| && forall i :: 0 <= i < |r| ==> r[i] == Shard(data, size, indices[i])
  {
    seq(|indices|, i requires 0 <= i < |indices| => Shard(data, size, indices[i]))
  }

  /** The code is systematic: the first k shards are the data itself. */
  lemma DataShardsAreData(data: seq<Vector>, size: nat, i: nat)
    requires Shaped(data, size) && i < |data|
    ensures Shard(data, size, i) == data[i]
  {
    forall p | 0 <= p < size
      ensures Shard(data, size, i)[p] == data[i][p]
    {
      DotUnit(|data|, i, Column(data, p));
    }
  }

  // ----------------------------------------------------------- recovery matrix

  lemma {:induction false} DotAppend(r: Vector, v: Vector, x: Element, y: Element)
    requires |r| == |v|
    ensures Dot(r + [x], v + [y]) == Add(Dot(r, v), Mul(x, y))
  {
    var p := Products(r + [x], v + [y]);
    assert p[..|r|] == Products(r, v);
  }

  /** A row times a matrix, column by column. */
  function RecoveryRow(e: Vector, inverse: Matrix, k: nat): (r: Vector)
    ensures |r| == k && forall j :: 0 <= j < k ==> r[j] == Dot(e, Column(inverse, j))
  {
    Combine(e, inverse, k)
  }

  lemma ColumnPrefix(inverse: Matrix, n: nat, j: nat)
    requires |inverse| == n + 1 && j < |inverse[n]|
    ensures Column(inverse, j) == Column(inverse[..n], j) + [inverse[n][j]]
  {
  }

  lemma RecoveryEntryStep(e: Vector, inverse: Matrix, n: nat, j: nat)
    requires |e| == |inverse| == n + 1 && j < |inverse[n]|
    ensures Dot(e, Column(inverse, j)) == Add(Dot(e[..n], Column(inverse[..n], j)), Mul(e[n], inverse[n][j]))
  {
    assert e == e[..n] + [e[n]];
    ColumnPrefix(inverse, n, j);
    DotAppend(e[..n], Column(inverse[..n], j), e[n], inverse[n][j]);
  }

  lemma RecoveryRowStep(e: Vector, inverse: Matrix, k: nat, n: nat)
    requires |e| == |inverse| == n + 1 && |inverse[n]| == k
    ensures RecoveryRow(e, inverse, k) == AddRow(RecoveryRow(e[..n], inverse[..n], k), e[n], inverse[n])
  {
    forall j | 0 <= j < k
      ensures RecoveryRow(e, inverse, k)[j] == AddRow(RecoveryRow(e[..n], inverse[..n], k), e[n], inverse[n])[j]
    {
      RecoveryEntryStep(e, inverse, n, j);
    }
  }

  lemma ApplyPrefix(inverse: Matrix, n: nat, w: Vector)
    requires |inverse| == n + 1
    ensures Apply(inverse, w) == Apply(inverse[..n], w) + [Dot(inverse[n], w)]
  {
  }

  lemma AssociatesStep(e: Vector, inverse: Matrix, w: Vector, n: nat)
    requires |e| == |inverse| == n + 1 && |inverse[n]| == |w|
    requires Dot(RecoveryRow(e[..n], inverse[..n], |w|), w) == Dot(e[..n], Apply(inverse[..n], w))
    ensures Dot(RecoveryRow(e, inverse, |w|), w) == Dot(e, Apply(inverse, w))
  {
    var r := RecoveryRow(e[..n], inverse[..n], |w|);
    RecoveryRowStep(e, inverse, |w|, n);
    DotAddRow(r, e[n], inverse[n], w);
    ApplyPrefix(inverse, n, w);
    assert e == e[..n] + [e[n]];
    DotAppend(e[..n], Apply(inverse[..n], w), e[n], Dot(inverse[n], w));
  }

  lemma AssociatesEmpty(w: Vector)
    ensures Dot(RecoveryRow([], [], |w|), w) == ZERO
  {
    var r := RecoveryRow([], [], |w|);
    forall i | 0 <= i < |w|
      ensures Products(r, w)[i] == ZERO
    {
      MulZeroLeft(w[i]);
    }
    SumOfZeros(Products(r, w));
  }

  /** Multiplying the matrices first or the vector first makes no difference. */
  lemma {:induction false} RecoveryAssociates(e: Vector, inverse: Matrix, w: Vector)
    requires |e| == |inverse| && Shaped(inverse, |w|)
    ensures Dot(RecoveryRow(e, inverse, |w|), w) == Dot(e, Apply(inverse, w))
    decreases |e|
  {
    if e == [] {
      AssociatesEmpty(w);
      SumOfZeros(Products(e, Apply(inverse, w)));
    } else {
      var n := |e| - 1;
      RecoveryAssociates(e[..n], inverse[..n], w);
      AssociatesStep(e, inverse, w, n);
    }
  }

  /** The bytes of the present shards are the image of the data bytes. */
  lemma PresentColumn(data: seq<Vector>, size: nat, present: seq<nat>, p: nat)
    requires p < size
    ensures Column(Shards(data, size, present), p) == Apply(Rows(|data|, present), Column(data, p))
  {
    var shards, d := Shards(data, size, present), Column(data, p);
    forall i | 0 <= i < |present|
      ensures Column(shards, p)[i] == Apply(Rows(|data|, present), d)[i]
    {
      assert shards[i] == Shard(data, size, present[i]);
    }
  }

  /** The recovery row of a shard, applied to the present shards, gives the shard. */
  lemma RecoveryRowRecovers(data: seq<Vector>, size: nat, present: seq<nat>, inverse: Matrix, i: nat)
    requires |present| == |data| && IsSquare(inverse, |data|) && Inverts(inverse, Rows(|data|, present), |data|)
    ensures Combine(RecoveryRow(EncodingRow(|data|, i), inverse, |data|), Shards(data, size, present), size)
         == Shard(data, size, i)
  {
    var k, e := |data|, EncodingRow(|data|, i);
    var row, shards := RecoveryRow(e, inverse, k), Shards(data, size, present);
    forall p | 0 <= p < size
      ensures Combine(row, shards, size)[p] == Shard(data, size, i)[p]
    {
      var d, w := Column(data, p), Column(shards, p);
      PresentColumn(data, size, present, p);
      RecoveryAssociates(e, inverse, w);
      assert Apply(inverse, Apply(Rows(k, present), d)) == d;
    }
  }

  // --------------------------------------------------- applying rows to shards

  /** What the first c shards contribute at one position. */
  function Partial(row: Vector, inputs: seq<Vector>, c: nat, p: nat): Element
    requires c <= |row| == |inputs|
  {
    Dot(row[..c], Column(inputs[..c], p))
  }

  lemma PartialStep(row: Vector, inputs: seq<Vector>, c: nat, p: nat)
    requires c < |row| == |inputs| && p < |inputs[c]|
    ensures Partial(row, inputs, c + 1, p) == Add(Partial(row, inputs, c, p), Mul(row[c], inputs[c][p]))
  {
    assert row[..c + 1] == row[..c] + [row[c]];
    assert Column(inputs[..c + 1], p) == Column(inputs[..c], p) + [inputs[c][p]];
    DotAppend(row[..c], Column(inputs[..c], p), row[c], inputs[c][p]);
  }

  lemma PartialOfZeros(row: Vector, inputs: seq<Vector>, c: nat, p: nat)
    requires c <= |row| == |inputs| && IsZero(row[..c])
    ensures Partial(row, inputs, c, p) == ZERO
  {
    var terms := Products(row[..c], Column(inputs[..c], p));
    forall i | 0 <= i < c
      ensures terms[i] == ZERO
    {
      MulZeroLeft(Column(inputs[..c], p)[i]);
    }
    SumOfZeros(terms);
  }

  lemma PartialIsAll(row: Vector, inputs: seq<Vector>, p: nat)
    requires |row| == |inputs|
    ensures Partial(row, inputs, |row|, p) == Dot(row, Column(inputs, p))
  {
    assert row[..|row|] == row && inputs[..|row|] == inputs;
  }

  /** The first contribution is written; a coefficient of zero or one needs no product. */
  method WriteScaled(output: array<Element>, src: Vector, coeff: Element)
    requires |src| == output.Length
    modifies output
    ensures forall p :: 0 <= p < output.Length ==> output[p] == Mul(coeff, src[p])
  {
    for p := 0 to output.Length
      invariant forall q :: 0 <= q < p ==> output[q] == Mul(coeff, src[q])
    {
      MulZeroLeft(src[p]);
      MulOneLeft(src[p]);
      output[p] := if coeff == ZERO then ZERO else if coeff == ONE then src[p] else Mul(coeff, src[p]);
    }
  }

  /** Every later contribution is added; a coefficient of zero adds nothing. */
  method XorScaled(output: array<Element>, src: Vector, coeff: Element)
    requires |src| == output.Length
    modifies output
    ensures forall p :: 0 <= p < output.Length ==> output[p] == Add(old(output[p]), Mul(coeff, src[p]))
  {
    if coeff == ZERO {
      forall p | 0 <= p < output.Length
        ensures output[p] == Add(output[p], Mul(coeff, src[p]))
      {
        MulZeroLeft(src[p]);
        AddZero(output[p]);
      }
      return;
    }
    for p := 0 to output.Length
      invariant forall q :: 0 <= q < p ==> output[q] == Add(old(output[q]), Mul(coeff, src[q]))
      invariant forall q :: p <= q < output.Length ==> output[q] == old(output[q])
    {
      MulOneLeft(src[p]);
      output[p] := Add(output[p], if coeff == ONE then src[p] else Mul(coeff, src[p]));
    }
  }

  method FirstNonZero(row: Vector) returns (first: nat)
    ensures first <= |row| && IsZero(row[..first]) && (first < |row| ==> row[first] != ZERO)
  {
    first := 0;
    while first < |row| && row[first] == ZERO
      invariant first <= |row| && forall i :: 0 <= i < first ==> row[i] == ZERO
    {
      first := first + 1;
    }
  }

  /** Whether the output holds what the first c shards contribute. */
  ghost predicate HoldsPartial(row: Vector, inputs: seq<Vector>, c: nat, output: Vector)
    requires c <= |row| == |inputs|
  {
    forall p :: 0 <= p < |output| ==> output[p] == Partial(row, inputs, c, p)
  }

  method AddRest(row: Vector, inputs: seq<Vector>, start: nat, output: array<Element>)
    requires start <= |row| == |inputs| && Shaped(inputs, output.Length)
    requires HoldsPartial(row, inputs, start, output[..])
    modifies output
    ensures HoldsPartial(row, inputs, |row|, output[..])
  {
    for c := start to |row|
      invariant HoldsPartial(row, inputs, c, output[..])
    {
      ghost var before := output[..];
      XorScaled(output, inputs[c], row[c]);
      NextPartial(row, inputs, c, before, output[..]);
    }
  }

  /** One output shard: leading zero coefficients are skipped, the first other one is written. */
  method ApplyRow(row: Vector, inputs: seq<Vector>, output: array<Element>)
    requires |row| == |inputs| && Shaped(inputs, output.Length)
    modifies output
    ensures output[..] == Combine(row, inputs, output.Length)
  {
    var first := FirstNonZero(row);
    if first == |row| {
      for p := 0 to output.Length
        invariant forall q :: 0 <= q < p ==> output[q] == ZERO
      {
        output[p] := ZERO;
      }
      ZeroPartial(row, inputs, output[..]);
    } else {
      WriteScaled(output, inputs[first], row[first]);
      FirstPartial(row, inputs, first, output[..]);
      AddRest(row, inputs, first + 1, output);
    }
    AllPartials(row, inputs, output[..]);
  }

  lemma ZeroPartial(row: Vector, inputs: seq<Vector>, output: Vector)
    requires |row| == |inputs| && IsZero(row[..|row|]) && IsZero(output)
    ensures HoldsPartial(row, inputs, |row|, output)
  {
    forall p | 0 <= p < |output|
      ensures output[p] == Partial(row, inputs, |row|, p)
    {
      PartialOfZeros(row, inputs, |row|, p);
    }
  }

  lemma FirstPartial(row: Vector, inputs: seq<Vector>, first: nat, output: Vector)
    requires first < |row| == |inputs| && IsZero(row[..first]) && Shaped(inputs, |output|)
    requires forall p :: 0 <= p < |output| ==> output[p] == Mul(row[first], inputs[first][p])
    ensures HoldsPartial(row, inputs, first + 1, output)
  {
    forall p | 0 <= p < |output|
      ensures output[p] == Partial(row, inputs, first + 1, p)
    {
      PartialOfZeros(row, inputs, first, p);
      PartialStep(row, inputs, first, p);
      AddZero(output[p]);
    }
  }

  lemma NextPartial(row: Vector, inputs: seq<Vector>, c: nat, before: Vector, after: Vector)
    requires c < |row| == |inputs| && Shaped(inputs, |after|) && |before| == |after|
    requires HoldsPartial(row, inputs, c, before)
    requires forall p :: 0 <= p < |after| ==> after[p] == Add(before[p], Mul(row[c], inputs[c][p]))
    ensures HoldsPartial(row, inputs, c + 1, after)
  {
    forall p | 0 <= p < |after|
      ensures after[p] == Partial(row, inputs, c + 1, p)
    {
      PartialStep(row, inputs, c, p);
    }
  }

  lemma AllPartials(row: Vector, inputs: seq<Vector>, output: Vector)
    requires |row| == |inputs| && HoldsPartial(row, inputs, |row|, output)
    ensures output == Combine(row, inputs, |output|)
  {
    forall p | 0 <= p < |output|
      ensures output[p] == Combine(row, inputs, |output|)[p]
    {
      PartialIsAll(row, inputs, p);
    }
  }
}
