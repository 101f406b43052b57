/**
 * The interleave width of the `<p>` index list and the per-semantic index
 * streams taken out of it.
 */
module Extraction {
  import opened Common
  import opened Collada

  /** The largest declared offset, starting from 0, in the order the source visits the entries. */
  function MaxOffsetOf(types: seq<SourceType>): (m: nat)
    ensures forall i :: 0 <= i < |types| ==> types[i].offset <= m
    ensures m == 0 || exists i :: 0 <= i < |types| && types[i].offset == m
  {
    if |types| == 0 then 0
    else
      var prev := MaxOffsetOf(types[..|types| - 1]);
      var offset := types[|types| - 1].offset;
      assert forall i :: 0 <= i < |types| - 1 ==> types[..|types| - 1][i] == types[i];
      if prev < offset then offset else prev
  }

  /** `maxOffset`: the loop over `sourceTypes` that keeps the larger of the running value and each offset. */
  method MaxOffset(types: seq<SourceType>) returns (maxOffset: nat)
    ensures maxOffset == MaxOffsetOf(types)
  {
    maxOffset := 0;
    for k := 0 to |types|
      invariant maxOffset == MaxOffsetOf(types[..k])
    {
      var offset := types[k].offset;
      assert types[..k + 1][..k] == types[..k];
      maxOffset := if maxOffset < offset then offset else maxOffset;
    }
    assert types[..|types|] == types;
  }

  /** The elements of `p` at `offset`, `offset + step`, `offset + 2 * step`, … below `|p|`. */
  function Strided(p: seq<nat>, offset: nat, step: nat): seq<nat>
    requires step > 0
    decreases |p| - offset
  {
    if offset >= |p| then [] else [p[offset]] + Strided(p, offset + step, step)
  }

  /**
   * Element `i` of the channel read from `offset` is `p[offset + i * step]`, and
   * there is one element for every such position below `|p|`.
   */
  lemma {:induction false} StridedElements(p: seq<nat>, offset: nat, step: nat)
    requires step > 0
    ensures var r := Strided(p, offset, step);
      forall i :: 0 <= i < |r| ==> offset + RecordStart(i, step) < |p| && r[i] == p[offset + RecordStart(i, step)]
    ensures forall i: nat :: offset + RecordStart(i, step) < |p| ==> i < |Strided(p, offset, step)|
    decreases |p| - offset
  {
    if offset < |p| {
      StridedElements(p, offset + step, step);
      StridedCons(p, offset, step, Strided(p, offset + step, step));
    }
  }

  /** Putting `p[offset]` in front of the channel read from `offset + step` gives the channel read from `offset`. */
  lemma StridedCons(p: seq<nat>, offset: nat, step: nat, rest: seq<nat>)
    requires 0 < step && offset < |p|
    requires forall i :: 0 <= i < |rest| ==> offset + step + RecordStart(i, step) < |p| && rest[i] == p[offset + step + RecordStart(i, step)]
    requires forall i: nat :: offset + step + RecordStart(i, step) < |p| ==> i < |rest|
    ensures forall i :: 0 <= i < |rest| + 1 ==> offset + RecordStart(i, step) < |p| && ([p[offset]] + rest)[i] == p[offset + RecordStart(i, step)]
    ensures forall i: nat :: offset + RecordStart(i, step) < |p| ==> i < |rest| + 1
  {
    var r := [p[offset]] + rest;
    forall i | 0 <= i < |rest| + 1
      ensures offset + RecordStart(i, step) < |p| && r[i] == p[offset + RecordStart(i, step)]
    {
      if i > 0 {
        Distribute(i - 1, step);
        assert r[i] == rest[i - 1];
      }
    }
    forall i: nat | offset + RecordStart(i, step) < |p|
      ensures i < |rest| + 1
    {
      if i > 0 {
        Distribute(i - 1, step);
        assert offset + step + RecordStart(i - 1, step) < |p|;
      }
    }
  }

  /** The extraction loop `for (j = offset; j < p.length; j += 1 + maxOffset) finalArray.push(p[j])`. */
  method ExtractStream(p: seq<nat>, offset: nat, maxOffset: nat) returns (finalArray: seq<nat>)
    ensures finalArray == Strided(p, offset, maxOffset + 1)
  {
    finalArray := [];
    var j := offset;
    while j < |p|
      invariant finalArray + Strided(p, j, maxOffset + 1) == Strided(p, offset, maxOffset + 1)
      decreases |p| - j
    {
      assert Strided(p, j, maxOffset + 1) == [p[j]] + Strided(p, j + 1 + maxOffset, maxOffset + 1);
      finalArray := finalArray + [p[j]];
      j := j + 1 + maxOffset;
    }
    assert finalArray + [] == finalArray;
  }

  /**
   * When `p` holds whole records of `step` indices, every channel whose offset
   * lies inside a record yields one index per record, so all channels have the
   * same length.
   */
  lemma StridedRecordCount(p: seq<nat>, offset: nat, step: nat)
    requires offset < step && |p| % step == 0
    ensures |Strided(p, offset, step)| == |p| / step
  {
    var q := |p| / step;
    assert |p| == q * step;
    StridedCovers(p, offset, step, q);
    StridedWithin(p, offset, step, q);
  }

  lemma StridedCovers(p: seq<nat>, offset: nat, step: nat, q: nat)
    requires offset < step && |p| == q * step
    ensures q <= |Strided(p, offset, step)|
  {
    StridedElements(p, offset, step);
    if q > 0 {
      Distribute(q - 1, step);
      assert offset + RecordStart(q - 1, step) < |p|;
    }
  }

  lemma StridedWithin(p: seq<nat>, offset: nat, step: nat, q: nat)
    requires 0 < step && |p| == q * step
    ensures |Strided(p, offset, step)| <= q
  {
    var r := Strided(p, offset, step);
    StridedElements(p, offset, step);
    if |r| > 0 {
      var last := |r| - 1;
      assert RecordStart(last, step) < RecordStart(q, step);
      MulLess(last, q, step);
    }
  }
}
