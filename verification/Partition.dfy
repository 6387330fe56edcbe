/** Cutting an input into pieces: nothing is lost, repeated or reordered. */
module Partition {
  import opened Sequences

  const MAX_USIZE: nat := 0xFFFF_FFFF_FFFF_FFFF
  const MAX_ISIZE: nat := 0x7FFF_FFFF_FFFF_FFFF

  function DivCeil(n: nat, d: nat): nat
    requires d > 0
  {
    (n + d - 1) / d
  }

  function Min(a: nat, b: nat): nat {
    if a < b then a else b
  }

  lemma CeilCovers(n: nat, d: nat)
    requires d > 0
    ensures n <= d * DivCeil(n, d) <= n + d - 1
    ensures DivCeil(n, d) <= n
  {
    var q := DivCeil(n, d);
    assert d * q <= n + d - 1 < d * q + d;
    if n == 0 {
      assert d * q < d * 1;
    } else if n < q {
      MultiplyMonotone(n + 1, q, d);
      assert (n + 1) * d == n * d + d;
      MultiplyMonotone(1, d, n);
      assert false;
    }
  }

  lemma MultiplyMonotone(a: nat, b: nat, c: nat)
    requires a <= b
    ensures a * c <= b * c
  {
  }

  /** The index arithmetic never overflows, for any slice that fits in memory. */
  lemma IndexFits(len: nat, parts: nat, index: nat)
    requires len <= MAX_ISIZE && parts <= MAX_USIZE && index < parts
    ensures index * DivCeil(len, parts) <= MAX_USIZE
    ensures Min(index * DivCeil(len, parts), len) + DivCeil(len, parts) <= MAX_USIZE
  {
    var q := DivCeil(len, parts);
    CeilCovers(len, parts);
    MultiplyMonotone(index, parts, q);
    if q <= 1 {
      MultiplyMonotone(q, 1, index);
    } else {
      MultiplyMonotone(2, q, parts);
    }
  }

  /**
    Equal-sized slices in order; the last ones may be short or empty. A slice
    is short only when nothing is left for the ones after it.
    */
  method SplitInput<T>(data: seq<T>, parts: nat) returns (slices: seq<seq<T>>)
    ensures |slices| == parts
    ensures parts > 0 ==> Flatten(slices) == data
    ensures parts > 0 ==> forall i :: 0 <= i < parts ==> |slices[i]| <= DivCeil(|data|, parts)
    ensures parts > 0 ==>
              forall i, j :: 0 <= i < j < parts && slices[j] != [] ==> |slices[i]| == DivCeil(|data|, parts)
  {
    slices := [];
    if parts == 0 {
      return;
    }
    var chunk := DivCeil(|data|, parts);
    for index := 0 to parts
      invariant |slices| == index
      invariant Flatten(slices) == data[..Min(index * chunk, |data|)]
      invariant forall i :: 0 <= i < index ==> |slices[i]| <= chunk
      invariant index * chunk <= |data| ==> forall i :: 0 <= i < index ==> |slices[i]| == chunk
      invariant forall i, j :: 0 <= i < j < index && slices[j] != [] ==> |slices[i]| == chunk
    {
      var start := Min(index * chunk, |data|);
      var end := Min(start + chunk, |data|);
      assert (index + 1) * chunk == index * chunk + chunk;
      assert end == Min((index + 1) * chunk, |data|);
      FlattenAppend(slices, data[start..end]);
      assert data[..start] + data[start..end] == data[..end];
      slices := slices + [data[start..end]];
    }
    CeilCovers(|data|, parts);
    assert data[..|data|] == data;
  }

  /** What one control byte takes: at least one and at most all that is left. */
  function Taken(left: nat, control: nat): (r: nat)
    requires left > 0
    ensures 1 <= r <= left
  {
    1 + control % left
  }

  /** The pieces the control bytes ask for; what no control takes is one last piece. */
  function Cuts<T>(data: seq<T>, controls: seq<nat>): seq<seq<T>>
    decreases |controls|
  {
    if data == [] then []
    else if controls == [] then [data]
    else
      var n := Taken(|data|, controls[0]);
      [data[..n]] + Cuts(data[n..], controls[1..])
  }

  /** The pieces are non-empty, at most one more than the controls, and join up to the input. */
  lemma {:induction false} CutsPartition<T>(data: seq<T>, controls: seq<nat>)
    ensures Flatten(Cuts(data, controls)) == data
    ensures |Cuts(data, controls)| <= |controls| + 1
    ensures [] !in Cuts(data, controls)
    decreases |controls|
  {
    if data != [] {
      if controls == [] {
        assert Flatten([data]) == data + Flatten([data][1..]);
      } else {
        var n := Taken(|data|, controls[0]);
        CutsPartition(data[n..], controls[1..]);
        assert Cuts(data, controls)[1..] == Cuts(data[n..], controls[1..]);
        assert data[..n] + data[n..] == data;
      }
    }
  }

  /** One control moves its piece from what is still to be cut to what is done. */
  lemma CutsStep<T>(done: seq<seq<T>>, data: seq<T>, offset: nat, controls: seq<nat>, c: nat)
    requires offset < |data| && c < |controls|
    ensures var n := Taken(|data| - offset, controls[c]);
            done + Cuts(data[offset..], controls[c..]) ==
            (done + [data[offset..offset + n]]) + Cuts(data[offset + n..], controls[c + 1..])
  {
    var n := Taken(|data| - offset, controls[c]);
    assert controls[c..][1..] == controls[c + 1..];
    assert data[offset..][..n] == data[offset..offset + n] && data[offset..][n..] == data[offset + n..];
  }

  /**
    Chunks steered by control bytes; the empty input is a single empty chunk.
    There is always a chunk at the end, so no fallback for none is needed.
    */
  method ChunkByControls<T>(data: seq<T>, controls: seq<nat>) returns (chunks: seq<seq<T>>)
    ensures data == [] ==> chunks == [[]]
    ensures data != [] ==> chunks != [] && chunks == Cuts(data, controls)
  {
    if data == [] {
      return [data];
    }
    chunks := [];
    var offset, c := 0, 0;
    assert data[0..] == data && controls[0..] == controls;
    while c < |controls| && offset < |data|
      invariant 0 <= c <= |controls| && 0 <= offset <= |data|
      invariant chunks + Cuts(data[offset..], controls[c..]) == Cuts(data, controls)
    {
      var len := Taken(|data| - offset, controls[c]);
      CutsStep(chunks, data, offset, controls, c);
      chunks := chunks + [data[offset..offset + len]];
      offset, c := offset + len, c + 1;
    }
    if offset < |data| {
      chunks := chunks + [data[offset..]];
    }
    assert chunks != [];
  }
}
