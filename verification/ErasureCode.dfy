/**
  The erasure code: k data shards are extended by m parity shards, and any k
  of the k + m shards determine all of them.
  */
module ErasureCode {
  import opened GaloisField
  import opened LinearAlgebra
  import opened MatrixInversion

  // ------------------------------------------------------ the encoding matrix

  /** The elements of the column numbers. */
  function Numbers(k: nat): (ys: Vector)
    ensures |ys| == k && forall j :: 0 <= j < k ==> ys[j] == FromNat(j)
  {
    seq(k, (j: nat) => FromNat(j))
  }

  /** A row of the identity for a data shard, a Cauchy row for a parity shard. */
  function EncodingRow(k: nat, i: nat): (r: Vector)
    ensures |r| == k
  {
    if i < k then Unit(k, i) else CauchyRow(Numbers(k), FromNat(i))
  }

  function Rows(k: nat, indices: seq<nat>): (m: Matrix)
    ensures |m| == |indices| && forall i :: 0 <= i < |m| ==> m[i] == EncodingRow(k, indices[i]) && |m[i]| == k
  {
    seq(|indices|, i requires 0 <= i < |indices| => EncodingRow(k, indices[i]))
  }

  ghost predicate DistinctIndices(indices: seq<nat>) {
    forall i, j :: 0 <= i < j < |indices| ==> indices[i] != indices[j]
  }

  ghost predicate InRange(indices: seq<nat>, total: nat) {
    forall i :: 0 <= i < |indices| ==> indices[i] < total
  }

  // ------------------------------------------------------------------ counting

  function Members(s: seq<nat>): set<nat> {
    set x | x in s
  }

  lemma {:induction false} MembersSize(s: seq<nat>)
    requires DistinctIndices(s)
    ensures |Members(s)| == |s|
  {
    if s != [] {
      var n := |s| - 1;
      MembersSize(s[..n]);
      assert s == s[..n] + [s[n]];
      assert Members(s) == Members(s[..n]) + {s[n]};
      assert s[n] !in Members(s[..n]);
    }
  }

  function Below(k: nat): (s: set<nat>)
    ensures |s| == k && forall x: nat :: x in s <==> x < k
  {
    if k == 0 then {} else Below(k - 1) + {k - 1}
  }

  lemma DifferencesAgree(s: set<nat>, t: set<nat>)
    requires |s| == |t|
    ensures |s - t| == |t - s|
  {
    assert s == (s - t) + (s * t) && t == (t - s) + (s * t);
    assert |s| == |s - t| + |s * t|;
    assert |t| == |t - s| + |s * t|;
  }

  function Elements(s: set<nat>): set<Element> {
    set x | x in s :: FromNat(x)
  }

  lemma {:induction false} ElementsSize(s: set<nat>)
    requires forall x :: x in s ==> x < 256
    ensures |Elements(s)| == |s|
    decreases |s|
  {
    if s != {} {
      var x :| x in s;
      ElementsSize(s - {x});
      forall y | y in s - {x}
        ensures FromNat(y) != FromNat(x)
      {
        NumbersRoundTrip(x);
        NumbersRoundTrip(y);
      }
      assert Elements(s) == Elements(s - {x}) + {FromNat(x)};
    }
  }

  // --------------------------------------------------------- any k rows suffice

  lemma NumbersDistinct(k: nat)
    requires k <= 256
    ensures Distinct(Numbers(k))
  {
    forall i, j | 0 <= i < j < k
      ensures Numbers(k)[i] != Numbers(k)[j]
    {
      NumbersRoundTrip(i);
      NumbersRoundTrip(j);
    }
  }

  lemma ParityIsApart(k: nat, i: nat)
    requires k <= i < 256
    ensures FromNat(i) !in Numbers(k)
  {
    forall j | 0 <= j < k
      ensures Numbers(k)[j] != FromNat(i)
    {
      NumbersRoundTrip(i);
      NumbersRoundTrip(j);
    }
  }

  /** A vector that all chosen rows send to zero vanishes at the chosen data shards. */
  lemma ChosenDataVanish(k: nat, present: seq<nat>, v: Vector, j: nat)
    requires |v| == k && IsZero(Apply(Rows(k, present), v)) && j < k && j in present
    ensures v[j] == ZERO
  {
    var i :| 0 <= i < |present| && present[i] == j;
    assert Apply(Rows(k, present), v)[i] == ZERO;
    DotUnit(k, j, v);
  }

  lemma ChosenParityOrthogonal(k: nat, present: seq<nat>, v: Vector, j: nat)
    requires |v| == k && IsZero(Apply(Rows(k, present), v)) && k <= j < 256 && j in present
    ensures Orthogonal(Numbers(k), v, FromNat(j))
  {
    var i :| 0 <= i < |present| && present[i] == j;
    assert Apply(Rows(k, present), v)[i] == ZERO;
    ParityIsApart(k, j);
  }

  /** As many data shards are missing as parity shards are chosen. */
  lemma MissingAreReplaced(k: nat, present: seq<nat>)
    requires |present| == k && DistinctIndices(present) && InRange(present, 256)
    ensures |Below(k) - Members(present)| == |Elements(Members(present) - Below(k))|
  {
    MembersSize(present);
    DifferencesAgree(Members(present), Below(k));
    ElementsSize(Members(present) - Below(k));
  }

  lemma OnlyMissingRemain(k: nat, present: seq<nat>, v: Vector)
    requires |v| == k && IsZero(Apply(Rows(k, present), v))
    ensures Supported(v, Below(k) - Members(present))
  {
    forall j | 0 <= j < k && j in present
      ensures v[j] == ZERO
    {
      ChosenDataVanish(k, present, v, j);
    }
  }

  lemma AllParityOrthogonal(k: nat, present: seq<nat>, v: Vector)
    requires |v| == k && IsZero(Apply(Rows(k, present), v)) && InRange(present, 256)
    ensures AllOrthogonal(Numbers(k), v, Elements(Members(present) - Below(k)))
  {
    forall x | x in Elements(Members(present) - Below(k))
      ensures Orthogonal(Numbers(k), v, x)
    {
      var j :| j in Members(present) - Below(k) && FromNat(j) == x;
      ChosenParityOrthogonal(k, present, v, j);
    }
  }

  lemma KernelIsTrivial(k: nat, present: seq<nat>, v: Vector)
    requires |present| == k <= 256 && DistinctIndices(present) && InRange(present, 256)
    requires |v| == k && IsZero(Apply(Rows(k, present), v))
    ensures IsZero(v)
  {
    MissingAreReplaced(k, present);
    NumbersDistinct(k);
    OnlyMissingRemain(k, present, v);
    AllParityOrthogonal(k, present, v);
    CauchyKernel(Numbers(k), v, Below(k) - Members(present), Elements(Members(present) - Below(k)));
  }

  /**
    Any k different rows of the encoding matrix form a regular matrix, so any
    k shards determine the data.
    */
  lemma AnyRowsAreRegular(k: nat, present: seq<nat>)
    requires |present| == k <= 256 && DistinctIndices(present) && InRange(present, 256)
    ensures Regular(Rows(k, present), k)
  {
    forall v: Vector | |v| == k && IsZero(Apply(Rows(k, present), v))
      ensures IsZero(v)
    {
      KernelIsTrivial(k, present, v);
    }
  }
}
