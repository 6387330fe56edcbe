/**
  Inversion of a square matrix by elimination, in place on arrays of rows.
  The row operations made on the input are also made on an identity matrix,
  which becomes the inverse.
  */
module MatrixInversion {
  import opened GaloisField
  import opened LinearAlgebra

  type Matrix = seq<Vector>

  ghost predicate Shaped(m: Matrix, n: nat) {
    forall i :: 0 <= i < |m| ==> |m[i]| == n
  }

  ghost predicate IsSquare(m: Matrix, n: nat) {
    |m| == n && Shaped(m, n)
  }

  function Apply(m: Matrix, v: Vector): (r: Vector)
    ensures |r| == |m| && forall i :: 0 <= i < |r| ==> r[i] == Dot(m[i], v)
  {
    seq(|m|, i requires 0 <= i < |m| => Dot(m[i], v))
  }

  /** Only the zero vector is mapped to zero. */
  ghost predicate Regular(m: Matrix, n: nat) {
    forall v: Vector {:trigger Apply(m, v)} :: |v| == n && IsZero(Apply(m, v)) ==> IsZero(v)
  }

  /** The first matrix undoes the second. */
  ghost predicate Inverts(inverse: Matrix, m: Matrix, n: nat) {
    forall v: Vector {:trigger Apply(m, v)} :: |v| == n ==> Apply(inverse, Apply(m, v)) == v
  }

  lemma ZeroMapsToZero(m: Matrix, v: Vector)
    requires IsZero(v)
    ensures IsZero(Apply(m, v))
  {
    forall i | 0 <= i < |m|
      ensures Dot(m[i], v) == ZERO
    {
      if |m[i]| == |v| {
        DotZero(m[i], v);
      }
    }
  }

  /** Whatever can be undone is regular. */
  lemma InvertsRegular(inverse: Matrix, m: Matrix, n: nat)
    requires Inverts(inverse, m, n)
    ensures Regular(m, n)
  {
    forall v: Vector | |v| == n && IsZero(Apply(m, v))
      ensures IsZero(v)
    {
      ZeroMapsToZero(inverse, Apply(m, v));
      assert Apply(inverse, Apply(m, v)) == v;
    }
  }

  // --------------------------------------------------------- row operations

  function ScaleRow(r: Vector, a: Element): (t: Vector)
    ensures |t| == |r| && forall i :: 0 <= i < |t| ==> t[i] == Mul(r[i], a)
  {
    seq(|r|, i requires 0 <= i < |r| => Mul(r[i], a))
  }

  function AddRow(r: Vector, a: Element, p: Vector): (t: Vector)
    ensures |t| == |r|
    ensures |p| == |r| ==> forall i :: 0 <= i < |t| ==> t[i] == Add(r[i], Mul(a, p[i]))
  {
    if |p| == |r| then seq(|r|, i requires 0 <= i < |r| => Add(r[i], Mul(a, p[i]))) else r
  }

  lemma DotScaleRow(r: Vector, a: Element, v: Vector)
    requires |r| == |v|
    ensures Dot(ScaleRow(r, a), v) == Mul(a, Dot(r, v))
  {
    forall i | 0 <= i < |r|
      ensures ScaleRow(r, a)[i] == Mul(a, r[i])
    {
      MulCommutes(r[i], a);
    }
    DotScales(a, r, ScaleRow(r, a), v);
  }

  lemma DotAddRow(r: Vector, a: Element, p: Vector, v: Vector)
    requires |r| == |p| == |v|
    ensures Dot(AddRow(r, a, p), v) == Add(Dot(r, v), Mul(a, Dot(p, v)))
  {
    var scaled := seq(|p|, i requires 0 <= i < |p| => Mul(a, p[i]));
    DotScales(a, p, scaled, v);
    DotAdds(r, scaled, AddRow(r, a, p), v);
  }

  lemma ApplyUpdate(m: Matrix, r: nat, t: Vector, v: Vector)
    requires r < |m|
    ensures Apply(m[r := t], v) == Apply(m, v)[r := Dot(t, v)]
  {
  }

  // ------------------------------------------------------ what steps preserve

  /**
    At one vector: the growing inverse takes its image under m to its image
    under the working matrix, and m sends to zero what the latter does.
    */
  ghost predicate TracksAt(m: Matrix, a: Matrix, b: Matrix, v: Vector) {
    Apply(a, v) == Apply(b, Apply(m, v)) && (IsZero(Apply(a, v)) ==> IsZero(Apply(m, v)))
  }

  ghost predicate Tracks(m: Matrix, a: Matrix, b: Matrix, n: nat) {
    forall v: Vector {:trigger TracksAt(m, a, b, v)} :: |v| == n ==> TracksAt(m, a, b, v)
  }

  lemma UpdateSquare(m: Matrix, n: nat, r: nat, t: Vector)
    requires IsSquare(m, n) && r < n && |t| == n
    ensures IsSquare(m[r := t], n)
  {
  }

  function Identity(n: nat): (m: Matrix)
    ensures |m| == n && forall i :: 0 <= i < n ==> m[i] == Unit(n, i)
  {
    seq(n, (i: nat) => Unit(n, i))
  }

  lemma ApplyIdentity(n: nat, v: Vector)
    requires |v| == n
    ensures Apply(Identity(n), v) == v
  {
    forall i | 0 <= i < n
      ensures Apply(Identity(n), v)[i] == v[i]
    {
      DotUnit(n, i, v);
    }
  }

  lemma TracksAtStart(m: Matrix, n: nat)
    requires IsSquare(m, n)
    ensures Tracks(m, m, Identity(n), n)
  {
    forall v: Vector | |v| == n
      ensures TracksAt(m, m, Identity(n), v)
    {
      ApplyIdentity(n, Apply(m, v));
    }
  }

  function SwapRows(m: Matrix, i: nat, j: nat): Matrix
    requires i < |m| && j < |m|
  {
    m[i := m[j]][j := m[i]]
  }

  lemma ZeroUpdate(x: Vector, r: nat, e: Element)
    requires r < |x| && IsZero(x[r := e]) && x[r] == ZERO
    ensures IsZero(x)
  {
    assert forall i :: 0 <= i < |x| && i != r ==> x[i] == x[r := e][i];
  }

  lemma ZeroSwap(x: Vector, i: nat, j: nat)
    requires i < |x| && j < |x| && IsZero(x[i := x[j]][j := x[i]])
    ensures IsZero(x)
  {
    var y := x[i := x[j]][j := x[i]];
    assert x[i] == y[j] && x[j] == y[i] && forall k :: 0 <= k < |x| && k != i && k != j ==> x[k] == y[k];
  }

  /** One row is changed, with equal images, and its old image vanishes when the new images do. */
  lemma UpdateAt(m: Matrix, a: Matrix, b: Matrix, v: Vector, r: nat, s: Vector, t: Vector)
    requires TracksAt(m, a, b, v) && r < |a| && r < |b| && Dot(s, v) == Dot(t, Apply(m, v))
    requires IsZero(Apply(a, v)[r := Dot(s, v)]) ==> Apply(a, v)[r] == ZERO
    ensures TracksAt(m, a[r := s], b[r := t], v)
  {
    ApplyUpdate(a, r, s, v);
    ApplyUpdate(b, r, t, Apply(m, v));
    if IsZero(Apply(a, v)[r := Dot(s, v)]) {
      ZeroUpdate(Apply(a, v), r, Dot(s, v));
    }
  }

  lemma ApplySwap(a: Matrix, v: Vector, i: nat, j: nat)
    requires i < |a| && j < |a|
    ensures var x := Apply(a, v); Apply(SwapRows(a, i, j), v) == x[i := x[j]][j := x[i]]
  {
    ApplyUpdate(a, i, a[j], v);
    ApplyUpdate(a[i := a[j]], j, a[i], v);
  }

  lemma SwapAt(m: Matrix, a: Matrix, b: Matrix, v: Vector, i: nat, j: nat)
    requires TracksAt(m, a, b, v) && i < |a| == |b| && j < |a|
    ensures TracksAt(m, SwapRows(a, i, j), SwapRows(b, i, j), v)
  {
    var x := Apply(a, v);
    ApplySwap(a, v, i, j);
    ApplySwap(b, Apply(m, v), i, j);
    if IsZero(x[i := x[j]][j := x[i]]) {
      ZeroSwap(x, i, j);
    }
  }

  lemma SwapTracks(m: Matrix, a: Matrix, b: Matrix, n: nat, i: nat, j: nat)
    requires Tracks(m, a, b, n) && i < |a| == |b| && j < |a|
    ensures Tracks(m, SwapRows(a, i, j), SwapRows(b, i, j), n)
  {
    forall v: Vector | |v| == n
      ensures TracksAt(m, SwapRows(a, i, j), SwapRows(b, i, j), v)
    {
      SwapAt(m, a, b, v, i, j);
    }
  }

  lemma ScaleAt(m: Matrix, a: Matrix, b: Matrix, v: Vector, p: nat, s: Element)
    requires TracksAt(m, a, b, v) && p < |a| == |b| && s != ZERO
    requires |a[p]| == |v| && |b[p]| == |m|
    ensures TracksAt(m, a[p := ScaleRow(a[p], s)], b[p := ScaleRow(b[p], s)], v)
  {
    DotScaleRow(a[p], s, v);
    DotScaleRow(b[p], s, Apply(m, v));
    assert Apply(a, v)[p] == Apply(b, Apply(m, v))[p];
    MulVanishes(s, Dot(a[p], v));
    var x := Apply(a, v)[p := Mul(s, Dot(a[p], v))];
    assert x[p] == Mul(s, Dot(a[p], v));
    UpdateAt(m, a, b, v, p, ScaleRow(a[p], s), ScaleRow(b[p], s));
  }

  lemma ScaleTracks(m: Matrix, a: Matrix, b: Matrix, n: nat, p: nat, s: Element)
    requires IsSquare(m, n) && IsSquare(a, n) && IsSquare(b, n) && Tracks(m, a, b, n) && p < n && s != ZERO
    ensures Tracks(m, a[p := ScaleRow(a[p], s)], b[p := ScaleRow(b[p], s)], n)
  {
    forall v: Vector | |v| == n
      ensures TracksAt(m, a[p := ScaleRow(a[p], s)], b[p := ScaleRow(b[p], s)], v)
    {
      ScaleAt(m, a, b, v, p, s);
    }
  }

  lemma AddAt(m: Matrix, a: Matrix, b: Matrix, v: Vector, r: nat, f: Element, p: nat)
    requires TracksAt(m, a, b, v) && r < |a| == |b| && p < |a| && r != p
    requires |a[r]| == |a[p]| == |v| && |b[r]| == |b[p]| == |m|
    ensures TracksAt(m, a[r := AddRow(a[r], f, a[p])], b[r := AddRow(b[r], f, b[p])], v)
  {
    var s, t, w := AddRow(a[r], f, a[p]), AddRow(b[r], f, b[p]), Apply(m, v);
    DotAddRow(a[r], f, a[p], v);
    DotAddRow(b[r], f, b[p], w);
    assert Apply(a, v)[p] == Apply(b, w)[p] && Apply(a, v)[r] == Apply(b, w)[r];
    var x := Apply(a, v)[r := Dot(s, v)];
    assert x[p] == Dot(a[p], v) && x[r] == Dot(s, v);
    AddZero(Dot(a[r], v));
    UpdateAt(m, a, b, v, r, s, t);
  }

  lemma AddTracks(m: Matrix, a: Matrix, b: Matrix, n: nat, r: nat, f: Element, p: nat)
    requires IsSquare(m, n) && IsSquare(a, n) && IsSquare(b, n) && Tracks(m, a, b, n)
    requires r < n && p < n && r != p
    ensures Tracks(m, a[r := AddRow(a[r], f, a[p])], b[r := AddRow(b[r], f, b[p])], n)
  {
    forall v: Vector | |v| == n
      ensures TracksAt(m, a[r := AddRow(a[r], f, a[p])], b[r := AddRow(b[r], f, b[p])], v)
    {
      AddAt(m, a, b, v, r, f, p);
    }
  }

  // ------------------------------------------------------------- elimination

  /** The first p columns are those of the identity. */
  ghost predicate Cleared(a: Matrix, n: nat, p: nat)
    requires IsSquare(a, n) && p <= n
  {
    forall i, c :: 0 <= i < n && 0 <= c < p ==> a[i][c] == if i == c then ONE else ZERO
  }

  /** The state of the elimination before column p. */
  ghost predicate Working(m: Matrix, a: Matrix, b: Matrix, n: nat, p: nat) {
    && p <= n && IsSquare(m, n) && IsSquare(a, n) && IsSquare(b, n)
    && Tracks(m, a, b, n) && Cleared(a, n, p)
  }

  lemma WorkingAtStart(m: Matrix, n: nat)
    requires IsSquare(m, n)
    ensures Working(m, m, Identity(n), n, 0)
  {
    TracksAtStart(m, n);
  }

  lemma SwapWorks(m: Matrix, a: Matrix, b: Matrix, n: nat, p: nat, i: nat)
    requires Working(m, a, b, n, p) && p <= i < n
    ensures Working(m, SwapRows(a, p, i), SwapRows(b, p, i), n, p)
  {
    SwapTracks(m, a, b, n, p, i);
  }

  lemma ScaleWorks(m: Matrix, a: Matrix, b: Matrix, n: nat, p: nat)
    requires Working(m, a, b, n, p) && p < n && a[p][p] != ZERO
    ensures var s := Inverse(a[p][p]);
            && Working(m, a[p := ScaleRow(a[p], s)], b[p := ScaleRow(b[p], s)], n, p)
            && ScaleRow(a[p], s)[p] == ONE
  {
    var s := Inverse(a[p][p]);
    InverseWorks(a[p][p]);
    InverseNonZero(a[p][p]);
    ScaleTracks(m, a, b, n, p, s);
    UpdateSquare(a, n, p, ScaleRow(a[p], s));
    UpdateSquare(b, n, p, ScaleRow(b[p], s));
    MulZeroLeft(s);
  }

  /** Subtracting a multiple of the pivot row clears the column and leaves the earlier ones. */
  lemma AddWorks(m: Matrix, a: Matrix, b: Matrix, n: nat, p: nat, r: nat)
    requires Working(m, a, b, n, p) && p < n && r < n && r != p && a[p][p] == ONE
    ensures var f := a[r][p];
            && Working(m, a[r := AddRow(a[r], f, a[p])], b[r := AddRow(b[r], f, b[p])], n, p)
            && AddRow(a[r], f, a[p])[p] == ZERO
  {
    var f := a[r][p];
    AddTracks(m, a, b, n, r, f, p);
    UpdateSquare(a, n, r, AddRow(a[r], f, a[p]));
    UpdateSquare(b, n, r, AddRow(b[r], f, b[p]));
    MulOneRight(f);
    AddCancels(f, f);
    forall c | 0 <= c < p
      ensures AddRow(a[r], f, a[p])[c] == a[r][c]
    {
      assert a[p][c] == ZERO;
      AddZero(a[r][c]);
    }
  }

  // ------------------------------------------------------- how it can get stuck

  lemma SumOfTwo(s: Vector, k: nat, l: nat)
    requires k < l < |s| && s[k] == s[l]
    requires forall i :: 0 <= i < |s| && i != k && i != l ==> s[i] == ZERO
    ensures Sum(s) == ZERO
  {
    var first, second := s[l := ZERO], seq(|s|, i => if i == l then s[l] else ZERO);
    forall i | 0 <= i < |s|
      ensures s[i] == Add(first[i], second[i])
    {
      AddZero(s[i]);
    }
    SumAdds(first, second, s);
    SumOfOne(first, k);
    SumOfOne(second, l);
    AddCancels(s[k], s[l]);
  }

  /** The vector that a stuck matrix sends to zero: the column, completed by a one. */
  function StuckVector(a: Matrix, n: nat, p: nat): (v: Vector)
    requires |a| == n && p < n && forall i :: 0 <= i < n ==> |a[i]| == n
    ensures |v| == n
    ensures forall j :: 0 <= j < n ==> v[j] == if j < p then a[j][p] else if j == p then ONE else ZERO
  {
    seq(n, j requires 0 <= j < n => if j < p then a[j][p] else if j == p then ONE else ZERO)
  }

  lemma StuckRow(a: Matrix, n: nat, p: nat, i: nat)
    requires IsSquare(a, n) && p < n && i < n && Cleared(a, n, p)
    requires forall k :: p <= k < n ==> a[k][p] == ZERO
    ensures Dot(a[i], StuckVector(a, n, p)) == ZERO
  {
    var v := StuckVector(a, n, p);
    var terms := Products(a[i], v);
    forall j | 0 <= j < n
      ensures terms[j] == if i < p && (j == i || j == p) then a[i][p] else ZERO
    {
      MulOneRight(a[i][p]);
      MulOneLeft(a[j][p]);
      MulZeroLeft(v[j]);
    }
    if i < p {
      SumOfTwo(terms, i, p);
    } else {
      SumOfZeros(terms);
    }
  }

  /** Without a pivot the matrix is not regular. */
  lemma StuckIsSingular(m: Matrix, a: Matrix, b: Matrix, n: nat, p: nat)
    requires Working(m, a, b, n, p) && p < n && forall k :: p <= k < n ==> a[k][p] == ZERO
    ensures !Regular(m, n)
  {
    var v := StuckVector(a, n, p);
    forall i | 0 <= i < n
      ensures Apply(a, v)[i] == ZERO
    {
      StuckRow(a, n, p, i);
    }
    assert TracksAt(m, a, b, v);
    assert IsZero(Apply(m, v));
    assert v[p] == ONE;
  }

  /** At the end the tracked matrix is the inverse. */
  lemma FinishedInverts(m: Matrix, a: Matrix, b: Matrix, n: nat)
    requires Working(m, a, b, n, n)
    ensures Inverts(b, m, n) && Regular(m, n)
  {
    forall i | 0 <= i < n
      ensures a[i] == Identity(n)[i]
    {
    }
    assert a == Identity(n);
    forall v: Vector | |v| == n
      ensures Apply(b, Apply(m, v)) == v
    {
      ApplyIdentity(n, v);
      assert TracksAt(m, a, b, v);
    }
    InvertsRegular(b, m, n);
  }

  // ------------------------------------------------------------------- loops

  method FillIdentity(output: array<Vector>)
    modifies output
    ensures output[..] == Identity(output.Length)
  {
    for i := 0 to output.Length
      invariant forall k :: 0 <= k < i ==> output[k] == Unit(output.Length, k)
    {
      output[i] := Unit(output.Length, i);
    }
  }

  /** The pivot row itself if it can serve, else the first row below that can, else the number of rows. */
  method FindPivot(input: array<Vector>, p: nat) returns (row: nat)
    requires IsSquare(input[..], input.Length) && p < input.Length
    ensures p <= row <= input.Length
    ensures row < input.Length ==> input[row][p] != ZERO
    ensures forall k :: p <= k < row ==> input[k][p] == ZERO
  {
    assert forall k :: 0 <= k < input.Length ==> |input[k]| == |input[..][k]| == input.Length;
    row := p;
    if input[p][p] == ZERO {
      row := p + 1;
      while row < input.Length && input[row][p] == ZERO
        invariant p < row <= input.Length
        invariant forall k :: p <= k < row ==> input[k][p] == ZERO
      {
        row := row + 1;
      }
    }
  }

  method Swap(rows: array<Vector>, i: nat, j: nat)
    requires i < rows.Length && j < rows.Length
    modifies rows
    ensures rows[..] == SwapRows(old(rows[..]), i, j)
  {
    rows[i], rows[j] := rows[j], rows[i];
  }

  method Put(rows: array<Vector>, r: nat, t: Vector)
    requires r < rows.Length
    modifies rows
    ensures rows[..] == old(rows[..])[r := t]
  {
    rows[r] := t;
  }

  /** Every row but the pivot row loses its multiple of the pivot row. */
  method ClearColumn(ghost m: Matrix, input: array<Vector>, output: array<Vector>, p: nat)
    requires input != output && input.Length == output.Length && p < input.Length
    requires Working(m, input[..], output[..], input.Length, p) && input[..][p][p] == ONE
    modifies input, output
    ensures Working(m, input[..], output[..], input.Length, p + 1)
  {
    ghost var n := input.Length;
    for row := 0 to input.Length
      invariant Working(m, input[..], output[..], n, p) && input[..][p][p] == ONE
      invariant forall i :: 0 <= i < row && i != p ==> input[..][i][p] == ZERO
    {
      if row != p {
        ghost var a, b := input[..], output[..];
        AddWorks(m, a, b, n, p, row);
        var factor := input[row][p];
        if factor != ZERO {
          Put(output, row, AddRow(output[row], factor, output[p]));
          Put(input, row, AddRow(input[row], factor, input[p]));
        }
      }
    }
  }

  /** Elimination succeeds exactly on regular matrices, and leaves the inverse in the output. */
  method InvertMatrix(input: array<Vector>, output: array<Vector>) returns (ok: bool)
    requires input != output && input.Length == output.Length && IsSquare(input[..], input.Length)
    modifies input, output
    ensures ok <==> Regular(old(input[..]), input.Length)
    ensures ok ==> IsSquare(output[..], input.Length) && Inverts(output[..], old(input[..]), input.Length)
  {
    ghost var m, n := input[..], input.Length;
    FillIdentity(output);
    WorkingAtStart(m, n);
    for pivot := 0 to input.Length
      invariant Working(m, input[..], output[..], n, pivot)
    {
      var row := FindPivot(input, pivot);
      if row == input.Length {
        StuckIsSingular(m, input[..], output[..], n, pivot);
        return false;
      }
      if row != pivot {
        SwapWorks(m, input[..], output[..], n, pivot, row);
        Swap(input, pivot, row);
        Swap(output, pivot, row);
      }
      ScaleWorks(m, input[..], output[..], n, pivot);
      var scale := Inverse(input[pivot][pivot]);
      Put(input, pivot, ScaleRow(input[pivot], scale));
      Put(output, pivot, ScaleRow(output[pivot], scale));
      ClearColumn(m, input, output, pivot);
    }
    FinishedInverts(m, input[..], output[..], n);
    return true;
  }
}
