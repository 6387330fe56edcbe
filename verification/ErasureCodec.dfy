/** The codec: building the matrix, encoding parity and reconstructing shards, with every check. */
module ErasureCodec {
  import opened Common
  import opened GaloisField
  import opened LinearAlgebra
  import opened MatrixInversion
  import opened ErasureCode
  import opened ShardRecovery

  datatype EcError =
    | InvalidConfig
    | ShardCount
    | ShardSizeMismatch(index: nat)
    | InsufficientShards
    | ShardIndexOutOfRange(index: nat)
    | DuplicateShardIndex(index: nat)
    | OverlappingIndices(index: nat)
    | UnsortedIndices(position: nat)
    | ShardSizeTooLarge
    | DuplicateRecoverIndex(index: nat)
    | SingularMatrix

  datatype Codec = Codec(k: nat, m: nat, matrix: Matrix) {

    function Total(): nat {
      k + m
    }

    ghost predicate Valid() {
      1 <= k && k + m <= MAX_TOTAL_SHARDS && matrix == Rows(k, Range(0, k + m))
    }
  }

  // -------------------------------------------------------------- construction

  function Range(from: nat, to: nat): (r: seq<nat>)
    requires from <= to
    ensures |r| == to - from && forall i :: 0 <= i < |r| ==> r[i] == from + i
  {
    seq(to - from, i requires 0 <= i < to - from => from + i)
  }

  /** The entry of a parity row: the inverse of the two numbers added as bytes. */
  method ParityEntry(k: nat, row: nat, col: nat) returns (e: Element)
    requires col < k <= row
    ensures e == EncodingRow(k, row)[col]
  {
    e := Inverse(Add(FromNat(row), FromNat(col)));
  }

  method ParityRow(k: nat, row: nat) returns (r: Vector)
    requires k <= row
    ensures r == EncodingRow(k, row)
  {
    ghost var wanted := EncodingRow(k, row);
    r := [];
    for col := 0 to k
      invariant r == wanted[..col]
    {
      var e := ParityEntry(k, row, col);
      r := r + [e];
    }
  }

  method BuildRow(k: nat, total: nat, row: nat) returns (r: Vector)
    requires row < total
    ensures r == Rows(k, Range(0, total))[row]
  {
    if row < k {
      r := Unit(k, row);
    } else {
      r := ParityRow(k, row);
    }
  }

  /** Identity rows for the data, then a Cauchy row for every parity shard. */
  method EncodingMatrix(k: nat, total: nat) returns (matrix: Matrix)
    ensures matrix == Rows(k, Range(0, total))
  {
    ghost var wanted := Rows(k, Range(0, total));
    matrix := [];
    for row := 0 to total
      invariant matrix == wanted[..row]
    {
      var r := BuildRow(k, total, row);
      matrix := matrix + [r];
    }
  }

  method NewCodec(k: nat, m: nat) returns (r: Result<Codec, EcError>)
    ensures r.Ok? <==> 1 <= k && k + m <= MAX_TOTAL_SHARDS
    ensures r.Ok? ==> r.value.Valid() && r.value.k == k && r.value.m == m
    ensures r.Err? ==> r.error == InvalidConfig
  {
    if k == 0 || k + m > MAX_TOTAL_SHARDS {
      return Err(InvalidConfig);
    }
    var matrix := EncodingMatrix(k, k + m);
    return Ok(Codec(k, m, matrix));
  }

  // ---------------------------------------------------------------- validation

  /** The first shard from position i on whose size differs. */
  function CheckSizes(sizes: seq<nat>, size: nat, indices: seq<nat>, i: nat): (r: Option<EcError>)
    requires |indices| == |sizes| && i <= |sizes|
    ensures r != Some(SingularMatrix)
    decreases |sizes| - i
  {
    if i == |sizes| then None
    else if sizes[i] != size then Some(ShardSizeMismatch(indices[i]))
    else CheckSizes(sizes, size, indices, i + 1)
  }

  /** Present indices must be in range and strictly increasing. */
  function CheckPresent(present: seq<nat>, total: nat, i: nat): (r: Option<EcError>)
    requires i <= |present|
    ensures r != Some(SingularMatrix)
    decreases |present| - i
  {
    if i == |present| then None
    else if present[i] >= total then Some(ShardIndexOutOfRange(present[i]))
    else if i > 0 && present[i] == present[i - 1] then Some(DuplicateShardIndex(present[i]))
    else if i > 0 && present[i] < present[i - 1] then Some(UnsortedIndices(i))
    else CheckPresent(present, total, i + 1)
  }

  /** Indices to recover must be in range, not present and not repeated. */
  function CheckRecover(recover: seq<nat>, present: seq<nat>, total: nat, i: nat): (r: Option<EcError>)
    requires i <= |recover|
    ensures r != Some(SingularMatrix)
    decreases |recover| - i
  {
    if i == |recover| then None
    else if recover[i] >= total then Some(ShardIndexOutOfRange(recover[i]))
    else if recover[i] in present then Some(OverlappingIndices(recover[i]))
    else if recover[i] in recover[..i] then Some(DuplicateRecoverIndex(recover[i]))
    else CheckRecover(recover, present, total, i + 1)
  }

  ghost predicate Increasing(s: seq<nat>) {
    forall i, j :: 0 <= i < j < |s| ==> s[i] < s[j]
  }

  /** From position i on, the check passes exactly when the rest continues the increasing list. */
  lemma {:induction false} PresentAccepted(present: seq<nat>, total: nat, i: nat)
    requires i <= |present| && Increasing(present[..i]) && InRange(present[..i], total)
    ensures CheckPresent(present, total, i).None? <==> Increasing(present) && InRange(present, total)
    decreases |present| - i
  {
    if i == |present| {
      assert present[..i] == present;
    } else {
      assert i > 0 ==> present[..i][i - 1] == present[i - 1];
      assert present[..i + 1] == present[..i] + [present[i]];
      if present[i] < total && (i > 0 ==> present[i - 1] < present[i]) {
        PresentAccepted(present, total, i + 1);
      }
    }
  }

  ghost predicate Disjoint(s: seq<nat>, t: seq<nat>) {
    forall i :: 0 <= i < |s| ==> s[i] !in t
  }

  lemma {:induction false} RecoverAccepted(recover: seq<nat>, present: seq<nat>, total: nat, i: nat)
    requires i <= |recover|
    requires InRange(recover[..i], total) && Disjoint(recover[..i], present) && DistinctIndices(recover[..i])
    ensures CheckRecover(recover, present, total, i).None? <==>
            InRange(recover, total) && Disjoint(recover, present) && DistinctIndices(recover)
    decreases |recover| - i
  {
    if i == |recover| {
      assert recover[..i] == recover;
    } else {
      assert recover[..i + 1] == recover[..i] + [recover[i]];
      if recover[i] < total && recover[i] !in present && recover[i] !in recover[..i] {
        RecoverAccepted(recover, present, total, i + 1);
      } else if recover[i] in recover[..i] {
        var j :| 0 <= j < i && recover[..i][j] == recover[i];
        assert recover[j] == recover[i];
      }
    }
  }

  /** The set of present shards is collected, then every index to recover is looked up in it. */
  method ValidateIndices(present: seq<nat>, recover: seq<nat>, total: nat) returns (r: Option<EcError>)
    ensures r == match CheckPresent(present, total, 0)
                 case Some(e) => Some(e)
                 case None => CheckRecover(recover, present, total, 0)
  {
    for i := 0 to |present|
      invariant CheckPresent(present, total, 0) == CheckPresent(present, total, i)
    {
      if present[i] >= total {
        return Some(ShardIndexOutOfRange(present[i]));
      }
      if i > 0 && present[i] <= present[i - 1] {
        return Some(if present[i] == present[i - 1] then DuplicateShardIndex(present[i]) else UnsortedIndices(i));
      }
    }
    var presentSet: set<nat> := {};
    for i := 0 to |present|
      invariant forall x :: x in presentSet <==> x in present[..i]
    {
      assert present[..i + 1] == present[..i] + [present[i]];
      presentSet := presentSet + {present[i]};
    }
    assert present[..|present|] == present;
    var recoverSet: set<nat> := {};
    for i := 0 to |recover|
      invariant CheckRecover(recover, present, total, 0) == CheckRecover(recover, present, total, i)
      invariant forall x :: x in recoverSet <==> x in recover[..i]
    {
      assert recover[..i + 1] == recover[..i] + [recover[i]];
      if recover[i] >= total {
        return Some(ShardIndexOutOfRange(recover[i]));
      }
      if recover[i] in presentSet {
        return Some(OverlappingIndices(recover[i]));
      }
      if recover[i] in recoverSet {
        return Some(DuplicateRecoverIndex(recover[i]));
      }
      recoverSet := recoverSet + {recover[i]};
    }
    return None;
  }

  method ValidateSizes(sizes: seq<nat>, size: nat, indices: seq<nat>) returns (r: Option<EcError>)
    requires |indices| == |sizes|
    ensures r == CheckSizes(sizes, size, indices, 0)
    ensures r.None? ==> forall i :: 0 <= i < |sizes| ==> sizes[i] == size
  {
    for i := 0 to |sizes|
      invariant CheckSizes(sizes, size, indices, 0) == CheckSizes(sizes, size, indices, i)
      invariant forall j :: 0 <= j < i ==> sizes[j] == size
    {
      if sizes[i] != size {
        return Some(ShardSizeMismatch(indices[i]));
      }
    }
    return None;
  }

  // ------------------------------------------------------------------ encoding

  function Sizes(shards: seq<Vector>): (r: seq<nat>)
    ensures |r| == |shards| && forall i :: 0 <= i < |r| ==> r[i] == |shards[i]|
  {
    seq(|shards|, i requires 0 <= i < |shards| => |shards[i]|)
  }

  function SizeOf(shards: seq<Vector>): nat {
    if shards == [] then 0 else |shards[0]|
  }

  function CheckEncode(c: Codec, data: seq<Vector>, paritySizes: seq<nat>): Option<EcError> {
    if |data| != c.k || |paritySizes| != c.m then Some(ShardCount)
    else if SizeOf(data) > MAX_SHARD_SIZE then Some(ShardSizeTooLarge)
    else match CheckSizes(Sizes(data), SizeOf(data), Range(0, |data|), 0)
    case Some(e) => Some(e)
    case None => CheckSizes(paritySizes, SizeOf(data), Range(c.k, c.k + |paritySizes|), 0)
  }

  /** One output shard in a buffer of its own. */
  method CombineRow(row: Vector, inputs: seq<Vector>, size: nat) returns (r: Vector)
    requires |row| == |inputs| && Shaped(inputs, size)
    ensures r == Combine(row, inputs, size)
  {
    var buffer := new Element[size](_ => ZERO);
    ApplyRow(row, inputs, buffer);
    r := buffer[..];
  }

  lemma MatrixRow(c: Codec, i: nat)
    requires c.Valid() && i < c.Total()
    ensures |c.matrix| == c.Total() && c.matrix[i] == EncodingRow(c.k, i)
  {
    assert Range(0, c.k + c.m)[i] == i;
  }

  /** The shard of an index, from the data and the row of the matrix. */
  method EncodeShard(c: Codec, data: seq<Vector>, size: nat, index: nat) returns (r: Vector)
    requires c.Valid() && |data| == c.k && Shaped(data, size) && index < c.Total()
    ensures r == Shard(data, size, index)
  {
    MatrixRow(c, index);
    r := CombineRow(c.matrix[index], data, size);
  }

  method EncodeEach(c: Codec, data: seq<Vector>, size: nat, indices: seq<nat>) returns (shards: seq<Vector>)
    requires c.Valid() && |data| == c.k && Shaped(data, size) && InRange(indices, c.Total())
    ensures shards == Shards(data, size, indices)
  {
    ghost var wanted := Shards(data, size, indices);
    shards := [];
    for i := 0 to |indices|
      invariant shards == wanted[..i]
    {
      var shard := EncodeShard(c, data, size, indices[i]);
      assert shard == wanted[i];
      shards := shards + [shard];
    }
  }

  lemma SizesShape(shards: seq<Vector>, size: nat)
    requires forall i :: 0 <= i < |shards| ==> Sizes(shards)[i] == size
    ensures Shaped(shards, size)
  {
    forall i | 0 <= i < |shards|
      ensures |shards[i]| == size
    {
      assert Sizes(shards)[i] == size;
    }
  }

  /** Every parity shard, or the first failing check. */
  method Encode(c: Codec, data: seq<Vector>, paritySizes: seq<nat>) returns (r: Result<seq<Vector>, EcError>)
    requires c.Valid()
    ensures match CheckEncode(c, data, paritySizes)
            case Some(e) => r == Err(e)
            case None => r == Ok(Shards(data, SizeOf(data), Range(c.k, c.k + c.m)))
  {
    if |data| != c.k || |paritySizes| != c.m {
      return Err(ShardCount);
    }
    var size := |data[0]|;
    if size > MAX_SHARD_SIZE {
      return Err(ShardSizeTooLarge);
    }
    var bad := ValidateSizes(Sizes(data), size, Range(0, |data|));
    if bad.Some? {
      return Err(bad.value);
    }
    bad := ValidateSizes(paritySizes, size, Range(c.k, c.k + |paritySizes|));
    if bad.Some? {
      return Err(bad.value);
    }
    SizesShape(data, size);
    var parity := EncodeEach(c, data, size, Range(c.k, c.k + c.m));
    return Ok(parity);
  }

  // ------------------------------------------------------------ reconstruction

  function CheckReconstruct(
    c: Codec, present: seq<nat>, presentData: seq<Vector>, recover: seq<nat>, outputSizes: seq<nat>): Option<EcError>
  {
    if |present| != |presentData| || |recover| != |outputSizes| then Some(ShardCount)
    else if |present| < c.k then Some(InsufficientShards)
    else match CheckPresent(present, c.Total(), 0)
    case Some(e) => Some(e)
    case None =>
      match CheckRecover(recover, present, c.Total(), 0)
      case Some(e) => Some(e)
      case None =>
        if SizeOf(presentData) > MAX_SHARD_SIZE then Some(ShardSizeTooLarge)
        else match CheckSizes(Sizes(presentData), SizeOf(presentData), present, 0)
        case Some(e) => Some(e)
        case None => CheckSizes(outputSizes, SizeOf(presentData), recover, 0)
  }

  /** Present shards that come from some data: whatever the data was, it determines the rest. */
  ghost predicate Recovers(
    k: nat, size: nat, present: seq<nat>, presentData: seq<Vector>, recover: seq<nat>, outputs: seq<Vector>)
  {
    forall data: seq<Vector> {:trigger Shards(data, size, present)} ::
      |data| == k && presentData == Shards(data, size, present) ==> outputs == Shards(data, size, recover)
  }

  /** The rows of the first k present shards. */
  method PresentRows(c: Codec, active: seq<nat>) returns (rows: array<Vector>)
    requires c.Valid() && |active| == c.k && InRange(active, c.Total())
    ensures fresh(rows) && rows.Length == c.k && rows[..] == Rows(c.k, active)
  {
    rows := new Vector[c.k](_ => []);
    for i := 0 to c.k
      invariant rows[..i] == Rows(c.k, active)[..i]
    {
      MatrixRow(c, active[i]);
      rows[i] := c.matrix[active[i]];
      assert rows[i] == Rows(c.k, active)[i];
    }
    assert rows[..] == rows[..c.k];
  }

  lemma IncreasingIsDistinct(s: seq<nat>)
    requires Increasing(s)
    ensures DistinctIndices(s)
  {
  }

  /** The inverse always exists: no choice of shards makes the matrix singular. */
  method InvertPresent(c: Codec, active: seq<nat>) returns (inverse: Matrix)
    requires c.Valid() && |active| == c.k && InRange(active, c.Total()) && Increasing(active)
    ensures IsSquare(inverse, c.k) && Inverts(inverse, Rows(c.k, active), c.k)
  {
    var rows := PresentRows(c, active);
    var output := new Vector[c.k](_ => []);
    IncreasingIsDistinct(active);
    AnyRowsAreRegular(c.k, active);
    var ok := InvertMatrix(rows, output);
    assert ok;
    inverse := output[..];
  }

  /** One row of the recovery matrix, entry by entry. */
  method BuildRecoveryRow(e: Vector, inverse: Matrix, k: nat) returns (row: Vector)
    requires |e| == k && IsSquare(inverse, k)
    ensures row == RecoveryRow(e, inverse, k)
  {
    ghost var wanted := RecoveryRow(e, inverse, k);
    row := [];
    for j := 0 to k
      invariant row == wanted[..j]
    {
      var value := RecoveryEntry(e, inverse, k, j);
      row := row + [value];
    }
  }

  method RecoveryEntry(e: Vector, inverse: Matrix, k: nat, j: nat) returns (value: Element)
    requires |e| == k && IsSquare(inverse, k) && j < k
    ensures value == RecoveryRow(e, inverse, k)[j]
  {
    value := ZERO;
    for col := 0 to k
      invariant value == Partial(e, inverse, col, j)
    {
      PartialStep(e, inverse, col, j);
      value := Add(value, Mul(e[col], inverse[col][j]));
    }
    PartialIsAll(e, inverse, j);
  }

  method RecoverShard(c: Codec, inverse: Matrix, activeData: seq<Vector>, size: nat, index: nat)
    returns (r: Vector)
    requires c.Valid() && IsSquare(inverse, c.k) && |activeData| == c.k && Shaped(activeData, size)
    requires index < c.Total()
    ensures r == Combine(RecoveryRow(EncodingRow(c.k, index), inverse, c.k), activeData, size)
  {
    MatrixRow(c, index);
    var row := BuildRecoveryRow(c.matrix[index], inverse, c.k);
    r := CombineRow(row, activeData, size);
  }

  lemma ActiveShards(data: seq<Vector>, size: nat, present: seq<nat>, presentData: seq<Vector>, k: nat)
    requires k <= |present| && presentData == Shards(data, size, present)
    ensures presentData[..k] == Shards(data, size, present[..k])
  {
  }

  /** Shards computed with the inverse are the ones of whatever data the present shards encode. */
  lemma InverseRecovers(
    k: nat, size: nat, present: seq<nat>, presentData: seq<Vector>, recover: seq<nat>, outputs: seq<Vector>,
    inverse: Matrix)
    requires k <= |present| == |presentData| && |outputs| == |recover|
    requires IsSquare(inverse, k) && Inverts(inverse, Rows(k, present[..k]), k)
    requires forall i :: 0 <= i < |outputs| ==>
               outputs[i] == Combine(RecoveryRow(EncodingRow(k, recover[i]), inverse, k), presentData[..k], size)
    ensures Recovers(k, size, present, presentData, recover, outputs)
  {
    forall data: seq<Vector> | |data| == k && presentData == Shards(data, size, present)
      ensures outputs == Shards(data, size, recover)
    {
      ActiveShards(data, size, present, presentData, k);
      forall i | 0 <= i < |outputs|
        ensures outputs[i] == Shards(data, size, recover)[i]
      {
        RecoveryRowRecovers(data, size, present[..k], inverse, recover[i]);
      }
    }
  }

  method RecoverAll(
    c: Codec, present: seq<nat>, presentData: seq<Vector>, size: nat, recover: seq<nat>) returns (outputs: seq<Vector>)
    requires c.Valid() && c.k <= |present| == |presentData| && Shaped(presentData, size)
    requires InRange(present, c.Total()) && Increasing(present) && InRange(recover, c.Total())
    ensures Recovers(c.k, size, present, presentData, recover, outputs)
  {
    var active, activeData := present[..c.k], presentData[..c.k];
    var inverse := InvertPresent(c, active);
    outputs := [];
    for i := 0 to |recover|
      invariant |outputs| == i
      invariant forall j :: 0 <= j < i ==>
                  outputs[j] == Combine(RecoveryRow(EncodingRow(c.k, recover[j]), inverse, c.k), activeData, size)
    {
      var shard := RecoverShard(c, inverse, activeData, size, recover[i]);
      outputs := outputs + [shard];
    }
    InverseRecovers(c.k, size, present, presentData, recover, outputs, inverse);
  }

  lemma EmptyRecovers(
    k: nat, size: nat, present: seq<nat>, presentData: seq<Vector>, recover: seq<nat>, outputs: seq<Vector>)
    requires |outputs| == |recover| && (recover == [] || size == 0) && forall i :: 0 <= i < |outputs| ==> outputs[i] == []
    ensures Recovers(k, size, present, presentData, recover, outputs)
  {
    forall data: seq<Vector> | |data| == k && presentData == Shards(data, size, present)
      ensures outputs == Shards(data, size, recover)
    {
      forall i | 0 <= i < |outputs|
        ensures outputs[i] == Shards(data, size, recover)[i]
      {
        assert |Shard(data, size, recover[i])| == 0;
      }
    }
  }

  /**
    Any k or more shards give back all others: the call fails only on a
    malformed request, and whatever data the present shards encode, the
    outputs are the shards of that data.
    */
  method Reconstruct(
    c: Codec, present: seq<nat>, presentData: seq<Vector>, recover: seq<nat>, outputSizes: seq<nat>)
    returns (r: Result<seq<Vector>, EcError>)
    requires c.Valid()
    ensures match CheckReconstruct(c, present, presentData, recover, outputSizes)
            case Some(e) => r == Err(e) && e != SingularMatrix
            case None => r.Ok? && Recovers(c.k, SizeOf(presentData), present, presentData, recover, r.value)
  {
    if |present| != |presentData| || |recover| != |outputSizes| {
      return Err(ShardCount);
    }
    if |present| < c.k {
      return Err(InsufficientShards);
    }
    var bad := ValidateIndices(present, recover, c.Total());
    if bad.Some? {
      return Err(bad.value);
    }
    var size := |presentData[0]|;
    if size > MAX_SHARD_SIZE {
      return Err(ShardSizeTooLarge);
    }
    bad := ValidateSizes(Sizes(presentData), size, present);
    if bad.Some? {
      return Err(bad.value);
    }
    SizesShape(presentData, size);
    bad := ValidateSizes(outputSizes, size, recover);
    if bad.Some? {
      return Err(bad.value);
    }
    if recover == [] || size == 0 {
      var empty: seq<Vector> := seq(|recover|, _ => []);
      EmptyRecovers(c.k, size, present, presentData, recover, empty);
      return Ok(empty);
    }
    PresentAccepted(present, c.Total(), 0);
    RecoverAccepted(recover, present, c.Total(), 0);
    var outputs := RecoverAll(c, present, presentData, size, recover);
    return Ok(outputs);
  }

  /** Lost data comes back: a recovered data shard is the one that was encoded. */
  lemma LostDataComesBack(
    data: seq<Vector>, size: nat, present: seq<nat>, recover: seq<nat>, outputs: seq<Vector>, i: nat)
    requires Shaped(data, size)
    requires Recovers(|data|, size, present, Shards(data, size, present), recover, outputs)
    requires i < |recover| && recover[i] < |data|
    ensures |outputs| == |recover| && outputs[i] == data[recover[i]]
  {
    assert outputs == Shards(data, size, recover);
    DataShardsAreData(data, size, recover[i]);
  }
}
