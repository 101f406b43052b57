/**
 * What the reconciliation pass achieves, stated corner by corner and for the
 * whole index stream: the first corner of a position keeps its index, a corner
 * whose tuple is registered reuses that vertex, any other corner gets a fresh
 * copy of its position at the end of the vertex array, and afterwards two
 * corners share a vertex exactly when they share position and tuple.
 */
module Seams {
  import opened Common
  import opened Matching
  import opened Reconcile
  import opened PassInvariant

  /** The state of the pass just before corner `j` is processed. */
  function Before(input: Input, j: nat): (s: Pass)
    requires Runnable(input) && j <= |input.streams.positions|
    ensures |s.indices| == |input.streams.positions|
  {
    if j == 0 then Initial(input) else Step(input, Before(input, j - 1), j - 1)
  }

  /** Continuing the pass from the state before corner `j` ends where the whole pass ends. */
  lemma {:induction false} BeforeFinal(input: Input, j: nat)
    requires Runnable(input) && j <= |input.streams.positions|
    ensures RunFrom(input, j, Before(input, j)) == Final(input)
  {
    if j > 0 {
      BeforeFinal(input, j - 1);
      RunOneMore(input, j);
    }
  }

  lemma RunOneMore(input: Input, j: nat)
    requires Runnable(input) && 0 < j <= |input.streams.positions|
    ensures RunFrom(input, j - 1, Before(input, j - 1)) == RunFrom(input, j, Before(input, j))
  {
    var s := Before(input, j - 1);
    var r := Step(input, s, j - 1);
    assert Before(input, j) == r;
  }

  lemma FinalIsLast(input: Input)
    requires Runnable(input)
    ensures Final(input) == Before(input, |input.streams.positions|)
  {
    BeforeFinal(input, |input.streams.positions|);
  }

  lemma {:induction false} BeforeInv(input: Input, j: nat)
    requires WellIndexed(input) && j <= |input.streams.positions|
    ensures Inv(input, j, Before(input, j))
  {
    if j == 0 {
      InitialInv(input);
    } else {
      BeforeInv(input, j - 1);
      InvOneMore(input, j);
    }
  }

  lemma InvOneMore(input: Input, j: nat)
    requires WellIndexed(input) && 0 < j <= |input.streams.positions|
    requires Inv(input, j - 1, Before(input, j - 1))
    ensures Inv(input, j, Before(input, j))
  {
    var s := Before(input, j - 1);
    var r := Step(input, s, j - 1);
    assert Before(input, j) == r;
    StepInv(input, j - 1, s, r);
  }

  /** Registered entries are never removed, reordered, re-indexed or given other coordinates. */
  ghost predicate Extends(reg1: Registry, reg2: Registry)
  {
    ExtendsParts(reg1, reg2)
  }

  ghost predicate ExtendsParts(reg1: Registry, reg2: Registry)
  {
    && (forall q :: q in reg1 ==> q in reg2 && |reg1[q]| <= |reg2[q]|)
    && (forall q, k :: q in reg1 && 0 <= k < |reg1[q]| ==>
          q in reg2 && k < |reg2[q]| &&
          reg2[q][k].index == reg1[q][k].index && reg2[q][k].coords == reg1[q][k].coords)
  }

  lemma ExtendsTrans(reg1: Registry, reg2: Registry, reg3: Registry)
    requires Extends(reg1, reg2) && Extends(reg2, reg3)
    ensures Extends(reg1, reg3)
  {
  }

  /** One corner only adds to the registry and to the end of the vertex array. */
  lemma StepExtends(input: Input, s: Pass, j: nat)
    requires j < |input.streams.positions| == |s.indices| && Aligned(input.vertex)
    ensures Extends(s.registry, Step(input, s, j).registry)
    ensures |s.vertices| <= |Step(input, s, j).vertices|
    ensures Step(input, s, j).vertices[..|s.vertices|] == s.vertices
  {
    StepCases(input, s, j);
    var r := Step(input, s, j);
    assert r.vertices[..|s.vertices|] == s.vertices;
  }

  /** Later corners leave the indices of corners before `j` alone. */
  lemma {:induction false} LaterIndices(input: Input, j: nat, n: nat)
    requires Runnable(input) && j <= n <= |input.streams.positions|
    ensures forall i :: 0 <= i < j ==> Before(input, n).indices[i] == Before(input, j).indices[i]
    decreases n - j
  {
    if j < n {
      LaterIndices(input, j, n - 1);
      IndicesOneLater(input, j, n);
    }
  }

  lemma IndicesOneLater(input: Input, j: nat, n: nat)
    requires Runnable(input) && j < n <= |input.streams.positions|
    ensures forall i :: 0 <= i < j ==> Before(input, n).indices[i] == Before(input, n - 1).indices[i]
  {
    var s := Before(input, n - 1);
    var r := Step(input, s, n - 1);
    assert Before(input, n) == r;
  }

  /** Later corners only add to the registry. */
  lemma {:induction false} LaterExtends(input: Input, j: nat, n: nat)
    requires Runnable(input) && j <= n <= |input.streams.positions|
    ensures Extends(Before(input, j).registry, Before(input, n).registry)
    decreases n - j
  {
    if j < n {
      LaterExtends(input, j, n - 1);
      OneLaterExtends(input, Before(input, j).registry, n - 1);
    }
  }

  lemma OneLaterExtends(input: Input, reg: Registry, n: nat)
    requires Runnable(input) && n < |input.streams.positions|
    requires Extends(reg, Before(input, n).registry)
    ensures Extends(reg, Before(input, n + 1).registry)
  {
    var s := Before(input, n);
    StepExtends(input, s, n);
    ExtendsTrans(reg, s.registry, Step(input, s, n).registry);
  }

  /** The index corner `j` ends with is the one its own step gave it. */
  lemma CornerSettled(input: Input, j: nat)
    requires Runnable(input) && j < |input.streams.positions|
    ensures Final(input).indices[j] == Before(input, j + 1).indices[j]
    ensures Extends(Before(input, j + 1).registry, Final(input).registry)
  {
    var n := |input.streams.positions|;
    LaterIndices(input, j + 1, n);
    LaterExtends(input, j + 1, n);
    FinalIsLast(input);
  }

  // ----- one corner -----

  /**
   * A corner whose tuple equals a registered tuple of its position, where all
   * tuples have the same length 2 or 3 and no earlier entry holds that tuple,
   * takes the stored index; the vertex and normal arrays stay as they are.
   */
  lemma EqualTupleReuses(input: Input, s: Pass, j: nat, k: nat)
    requires j < |input.streams.positions| == |s.indices| && input.vertex.stride > 0
    requires input.streams.positions[j] in s.registry
    requires var es := s.registry[input.streams.positions[j]];
      && k < |es| && es[k].coords == TexTuple(input, j)
      && (|es[k].coords| == 2 || |es[k].coords| == 3)
      && (forall i :: 0 <= i < |es| ==> |es[i].coords| == |es[k].coords|)
      && (forall i :: 0 <= i < k ==> es[i].coords != es[k].coords)
    ensures var es := s.registry[input.streams.positions[j]];
      var r := Step(input, s, j);
      && r.indices == s.indices[j := es[k].index]
      && r.vertices == s.vertices && r.normals == s.normals
      && input.streams.positions[j] in r.registry
      && r.registry[input.streams.positions[j]][k].occurred == es[k].occurred + 1
  {
    var es := s.registry[input.streams.positions[j]];
    var t := TexTuple(input, j);
    forall i | 0 <= i <= k ensures Matches(es[i].coords, t) <==> i == k {
      MatchesSameLength(es[i].coords, t);
    }
    FirstMatchIsFirst(es, t, k);
  }

  /**
   * A corner whose tuple matches no registered tuple of its position gets the
   * vertex count just before the append as its index, and exactly one record,
   * the position's record, is appended to the vertex array, whose earlier part
   * stays as it was. The normal array grows by the slice of the extended
   * vertex array at the corner's normal index.
   */
  lemma DifferentTupleSplits(input: Input, s: Pass, j: nat)
    requires j < |input.streams.positions| == |s.indices| && input.vertex.stride > 0
    requires input.streams.positions[j] in s.registry
    requires forall i :: 0 <= i < |s.registry[input.streams.positions[j]]| ==>
      !Matches(s.registry[input.streams.positions[j]][i].coords, TexTuple(input, j))
    requires |s.vertices| % input.vertex.stride == 0
    requires RecordStart(input.streams.positions[j], input.vertex.stride) + input.vertex.stride <= |s.vertices|
    ensures var r := Step(input, s, j);
      var vS, lo := input.vertex.stride, RecordStart(input.streams.positions[j], input.vertex.stride);
      && r.indices == s.indices[j := RecordCount(|s.vertices|, vS)]
      && |r.vertices| == |s.vertices| + vS
      && r.vertices[..|s.vertices|] == s.vertices
      && r.vertices[|s.vertices|..] == s.vertices[lo..lo + vS]
      && RecordCount(|r.vertices|, vS) == RecordCount(|s.vertices|, vS) + 1
      && r.normals == s.normals + NormalCopy(input, j, r.vertices)
  {
    var p := input.streams.positions[j];
    var vS := input.vertex.stride;
    FirstMatchNone(s.registry[p], TexTuple(input, j));
    var r := Step(input, s, j);
    var lo := RecordStart(p, vS);
    SliceWithin(s.vertices, lo, lo + vS);
    OneMoreRecord(|s.vertices|, vS);
    assert r.vertices[..|s.vertices|] == s.vertices;
    assert r.vertices[|s.vertices|..] == s.vertices[lo..lo + vS];
  }

  /** A registered tuple of length other than 2 or 3 never matches: such a position splits on every revisit. */
  lemma OtherLengthsSplit(input: Input, s: Pass, j: nat)
    requires j < |input.streams.positions| == |s.indices| && input.vertex.stride > 0
    requires input.streams.positions[j] in s.registry
    requires forall i :: 0 <= i < |s.registry[input.streams.positions[j]]| ==>
      |s.registry[input.streams.positions[j]][i].coords| != 2 && |s.registry[input.streams.positions[j]][i].coords| != 3
    ensures Step(input, s, j).indices[j] == RecordCount(|s.vertices|, input.vertex.stride)
    ensures |Step(input, s, j).registry[input.streams.positions[j]]| == |s.registry[input.streams.positions[j]]| + 1
  {
    var es := s.registry[input.streams.positions[j]];
    forall i | 0 <= i < |es| ensures !Matches(es[i].coords, TexTuple(input, j)) {
      NeverMatchesOtherLengths(es[i].coords, TexTuple(input, j));
    }
    FirstMatchNone(es, TexTuple(input, j));
  }

  // ----- the whole pass -----

  /**
   * The first corner of a position keeps the position's index in the output
   * stream, and the position's first registered entry holds that corner's tuple.
   */
  lemma FirstOccurrence(input: Input, j: nat)
    requires Runnable(input) && j < |input.streams.positions|
    requires input.streams.positions[j] !in input.streams.positions[..j]
    ensures var p, out := input.streams.positions[j], Final(input);
      && out.indices[j] == p
      && p in out.registry && |out.registry[p]| > 0
      && out.registry[p][0].index == p && out.registry[p][0].coords == TexTuple(input, j)
  {
    var s := Before(input, j);
    KeysBefore(input, j);
    StepCases(input, s, j);
    CornerSettled(input, j);
  }

  /**
   * Before corner `j` the registry's keys are the positions of the corners
   * before `j`, and the corners from `j` on still hold their position indices.
   */
  lemma {:induction false} KeysBefore(input: Input, j: nat)
    requires Runnable(input) && j <= |input.streams.positions|
    ensures KeysSeen(input, j, Before(input, j))
    ensures forall i :: j <= i < |input.streams.positions| ==> Before(input, j).indices[i] == input.streams.positions[i]
  {
    if j > 0 {
      KeysBefore(input, j - 1);
      KeysOneMore(input, j);
    }
  }

  lemma KeysOneMore(input: Input, j: nat)
    requires Runnable(input) && 0 < j <= |input.streams.positions|
    requires KeysSeen(input, j - 1, Before(input, j - 1))
    requires forall i :: j - 1 <= i < |input.streams.positions| ==> Before(input, j - 1).indices[i] == input.streams.positions[i]
    ensures KeysSeen(input, j, Before(input, j))
    ensures forall i :: j <= i < |input.streams.positions| ==> Before(input, j).indices[i] == input.streams.positions[i]
  {
    var s := Before(input, j - 1);
    var r := Step(input, s, j - 1);
    assert Before(input, j) == r;
    StepCases(input, s, j - 1);
    KeysExtend(input, j - 1, s, r);
  }

  /**
   * After the pass the vertex array holds whole records and starts with the
   * original position data, and every corner's index is below the vertex count
   * and addresses a copy of the corner's original position record.
   */
  lemma OutputBounds(input: Input)
    requires WellIndexed(input)
    ensures var out, vS, data := Final(input), input.vertex.stride, input.vertex.data;
      && |out.vertices| % vS == 0
      && |data| <= |out.vertices| && out.vertices[..|data|] == data
      && forall j :: 0 <= j < |input.streams.positions| ==>
           out.indices[j] < RecordCount(|out.vertices|, vS) &&
           Record(out.vertices, vS, out.indices[j]) == Record(data, vS, input.streams.positions[j])
  {
    var out := Final(input);
    FinalInv(input);
    forall j | 0 <= j < |input.streams.positions|
      ensures out.indices[j] < RecordCount(|out.vertices|, input.vertex.stride)
      ensures Record(out.vertices, input.vertex.stride, out.indices[j]) ==
        Record(input.vertex.data, input.vertex.stride, input.streams.positions[j])
    {
      assert CornerOk(input, out, j);
    }
  }

  // ----- which entry each corner uses -----

  /** A registered tuple `c` fits the corner tuple `t` when it equals it or passes the source's comparison against it. */
  ghost predicate Fits(c: seq<Coord>, t: seq<Coord>)
  {
    c == t || Matches(c, t)
  }

  /** Corner `j` uses the index of some registered entry of its position whose tuple fits the corner's tuple. */
  ghost predicate Linked(input: Input, s: Pass, j: nat)
    requires j < |input.streams.positions| == |s.indices|
  {
    var q := input.streams.positions[j];
    q in s.registry &&
    exists k :: 0 <= k < |s.registry[q]| && s.registry[q][k].index == s.indices[j] &&
      Fits(s.registry[q][k].coords, TexTuple(input, j))
  }

  ghost predicate Links(input: Input, n: nat, s: Pass)
    requires n <= |input.streams.positions| == |s.indices|
  {
    forall j :: 0 <= j < n ==> Linked(input, s, j)
  }

  lemma Unprocessed(input: Input, n: nat, s: Pass)
    requires WellIndexed(input) && n < |input.streams.positions| && Inv(input, n, s)
    ensures s.indices[n] == input.streams.positions[n]
  {
  }

  lemma LinksExtend(input: Input, n: nat, s: Pass, r: Pass)
    requires n < |input.streams.positions| == |s.indices| == |r.indices|
    requires Links(input, n, s) && Extends(s.registry, r.registry)
    requires forall j :: 0 <= j < n ==> r.indices[j] == s.indices[j]
    requires Linked(input, r, n)
    ensures Links(input, n + 1, r)
  {
    forall j | 0 <= j < n + 1 ensures Linked(input, r, j) {
      if j < n {
        assert Linked(input, s, j);
        var q := input.streams.positions[j];
        var k :| 0 <= k < |s.registry[q]| && s.registry[q][k].index == s.indices[j] &&
          Fits(s.registry[q][k].coords, TexTuple(input, j));
        assert r.registry[q][k].index == r.indices[j] && r.registry[q][k].coords == s.registry[q][k].coords;
      }
    }
  }

  lemma LinkStep(input: Input, n: nat, s: Pass, r: Pass)
    requires Aligned(input.vertex) && n < |input.streams.positions| == |s.indices|
    requires s.indices[n] == input.streams.positions[n] && Links(input, n, s)
    requires r == Step(input, s, n)
    ensures Links(input, n + 1, r)
  {
    var p, t := input.streams.positions[n], TexTuple(input, n);
    StepCases(input, s, n);
    StepExtends(input, s, n);
    if p !in s.registry {
      assert r.registry[p][0].index == r.indices[n] && r.registry[p][0].coords == t;
    } else {
      match FirstMatch(s.registry[p], t)
      case Some(k) =>
        assert r.registry[p][k].index == r.indices[n] && Matches(r.registry[p][k].coords, t);
      case None =>
        var last := |s.registry[p]|;
        assert r.registry[p][last].index == r.indices[n] && r.registry[p][last].coords == t;
    }
    LinksExtend(input, n, s, r);
  }

  lemma {:induction false} LinksBefore(input: Input, j: nat)
    requires WellIndexed(input) && j <= |input.streams.positions|
    ensures Links(input, j, Before(input, j))
  {
    if j > 0 {
      LinksBefore(input, j - 1);
      LinksOneMore(input, j);
    }
  }

  lemma LinksOneMore(input: Input, j: nat)
    requires WellIndexed(input) && 0 < j <= |input.streams.positions|
    requires Links(input, j - 1, Before(input, j - 1))
    ensures Links(input, j, Before(input, j))
  {
    var n := j - 1;
    var s := Before(input, n);
    var r := Step(input, s, n);
    assert Before(input, j) == r;
    BeforeInv(input, n);
    Unprocessed(input, n, s);
    LinkStep(input, n, s, r);
  }

  // ----- tuples of one length two or three -----

  /** Every corner's tuple has `L` components, with `L` two or three (the usual UV stride is 2). */
  ghost predicate UniformTuples(input: Input, L: nat)
  {
    (L == 2 || L == 3) &&
    forall j :: 0 <= j < |input.streams.positions| ==> |TexTuple(input, j)| == L
  }

  ghost predicate TuplesOfLength(reg: Registry, L: nat)
  {
    forall q, k :: q in reg && 0 <= k < |reg[q]| ==> |reg[q][k].coords| == L
  }

  /** No position has two registered entries with the same tuple. */
  ghost predicate TuplesDistinct(reg: Registry)
  {
    forall q, k1, k2 :: q in reg && 0 <= k1 < k2 < |reg[q]| ==> reg[q][k1].coords != reg[q][k2].coords
  }

  lemma UniformStep(input: Input, L: nat, n: nat, s: Pass, r: Pass)
    requires Aligned(input.vertex) && UniformTuples(input, L) && n < |input.streams.positions| == |s.indices|
    requires TuplesOfLength(s.registry, L) && TuplesDistinct(s.registry)
    requires r == Step(input, s, n)
    ensures TuplesOfLength(r.registry, L) && TuplesDistinct(r.registry)
  {
    var p, t := input.streams.positions[n], TexTuple(input, n);
    StepCases(input, s, n);
    if p in s.registry && FirstMatch(s.registry[p], t).None? {
      var es := s.registry[p];
      forall k | 0 <= k < |es| ensures es[k].coords != t {
        MatchesSameLength(es[k].coords, t);
      }
      assert r.registry[p] == es + [Entry(t, CountOf(input, s), 1)];
    }
  }

  lemma {:induction false} UniformBefore(input: Input, L: nat, j: nat)
    requires WellIndexed(input) && UniformTuples(input, L) && j <= |input.streams.positions|
    ensures TuplesOfLength(Before(input, j).registry, L) && TuplesDistinct(Before(input, j).registry)
  {
    if j > 0 {
      UniformBefore(input, L, j - 1);
      UniformOneMore(input, L, j);
    }
  }

  lemma UniformOneMore(input: Input, L: nat, j: nat)
    requires WellIndexed(input) && UniformTuples(input, L) && 0 < j <= |input.streams.positions|
    requires TuplesOfLength(Before(input, j - 1).registry, L) && TuplesDistinct(Before(input, j - 1).registry)
    ensures TuplesOfLength(Before(input, j).registry, L) && TuplesDistinct(Before(input, j).registry)
  {
    var s := Before(input, j - 1);
    var r := Step(input, s, j - 1);
    assert Before(input, j) == r;
    UniformStep(input, L, j - 1, s, r);
  }

  /** With tuples of one length two or three, the entry a corner uses holds exactly the corner's tuple. */
  lemma LinkedEntry(input: Input, L: nat, s: Pass, j: nat) returns (k: nat)
    requires UniformTuples(input, L) && j < |input.streams.positions| == |s.indices|
    requires TuplesOfLength(s.registry, L) && Linked(input, s, j)
    ensures var es := s.registry[input.streams.positions[j]];
      k < |es| && es[k].index == s.indices[j] && es[k].coords == TexTuple(input, j)
  {
    var es := s.registry[input.streams.positions[j]];
    k :| 0 <= k < |es| && es[k].index == s.indices[j] && Fits(es[k].coords, TexTuple(input, j));
    MatchesSameLength(es[k].coords, TexTuple(input, j));
  }

  // ----- tuples of any one length -----

  /** Every corner's tuple has `L` components. */
  ghost predicate OneLength(input: Input, L: nat)
  {
    forall j :: 0 <= j < |input.streams.positions| ==> |TexTuple(input, j)| == L
  }

  lemma LengthStep(input: Input, L: nat, n: nat, s: Pass)
    requires Aligned(input.vertex) && OneLength(input, L) && n < |input.streams.positions| == |s.indices|
    requires TuplesOfLength(s.registry, L)
    ensures TuplesOfLength(Step(input, s, n).registry, L)
  {
    StepCases(input, s, n);
  }

  /** When all tuples have one length, so do all registered tuples, at every corner of the pass. */
  lemma {:induction false} LengthBefore(input: Input, L: nat, j: nat)
    requires Runnable(input) && OneLength(input, L) && j <= |input.streams.positions|
    ensures TuplesOfLength(Before(input, j).registry, L)
  {
    if j > 0 {
      LengthBefore(input, L, j - 1);
      LengthOneMore(input, L, j);
    }
  }

  lemma LengthOneMore(input: Input, L: nat, j: nat)
    requires Runnable(input) && OneLength(input, L) && 0 < j <= |input.streams.positions|
    requires TuplesOfLength(Before(input, j - 1).registry, L)
    ensures TuplesOfLength(Before(input, j).registry, L)
  {
    var s := Before(input, j - 1);
    var r := Step(input, s, j - 1);
    assert Before(input, j) == r;
    LengthStep(input, L, j - 1, s);
  }

  /**
   * With tuples of one length, whatever it is, the entry a corner uses holds
   * exactly the corner's tuple: for two or three components a match is
   * equality, and for any other length nothing matches.
   */
  lemma LinkedEntryAny(input: Input, L: nat, s: Pass, j: nat) returns (k: nat)
    requires OneLength(input, L) && j < |input.streams.positions| == |s.indices|
    requires TuplesOfLength(s.registry, L) && Linked(input, s, j)
    ensures var es := s.registry[input.streams.positions[j]];
      k < |es| && es[k].index == s.indices[j] && es[k].coords == TexTuple(input, j)
  {
    var es := s.registry[input.streams.positions[j]];
    k :| 0 <= k < |es| && es[k].index == s.indices[j] && Fits(es[k].coords, TexTuple(input, j));
    if L == 2 || L == 3 {
      MatchesSameLength(es[k].coords, TexTuple(input, j));
    } else {
      NeverMatchesOtherLengths(es[k].coords, TexTuple(input, j));
    }
  }

  lemma InvDistinct(input: Input, n: nat, s: Pass)
    requires WellIndexed(input) && n <= |input.streams.positions| && Inv(input, n, s)
    ensures DistinctIndices(s.registry)
  {
  }

  /**
   * The seam rule: with tuples of one length two or three, two corners end on
   * the same vertex exactly when they have the same position and the same tuple.
   */
  lemma SeamIff(input: Input, L: nat, j1: nat, j2: nat)
    requires WellIndexed(input) && UniformTuples(input, L)
    requires j1 < |input.streams.positions| && j2 < |input.streams.positions|
    ensures Final(input).indices[j1] == Final(input).indices[j2] <==>
      input.streams.positions[j1] == input.streams.positions[j2] && TexTuple(input, j1) == TexTuple(input, j2)
  {
    var n := |input.streams.positions|;
    var s := Before(input, n);
    FinalIsLast(input);
    BeforeInv(input, n);
    InvDistinct(input, n, s);
    LinksBefore(input, n);
    UniformBefore(input, L, n);
    var q1, q2 := input.streams.positions[j1], input.streams.positions[j2];
    assert Linked(input, s, j1) && Linked(input, s, j2);
    var k1 := LinkedEntry(input, L, s, j1);
    var k2 := LinkedEntry(input, L, s, j2);
    if q1 == q2 && TexTuple(input, j1) == TexTuple(input, j2) {
      assert s.registry[q1][k1].coords == s.registry[q1][k2].coords;
    }
  }

  // ----- tuples of other lengths -----

  /** No corner's tuple has two or three components. */
  ghost predicate NoPairsOrTriples(input: Input)
  {
    forall j :: 0 <= j < |input.streams.positions| ==> |TexTuple(input, j)| != 2 && |TexTuple(input, j)| != 3
  }

  ghost predicate TuplesAvoidPairsAndTriples(reg: Registry)
  {
    forall q, k :: q in reg && 0 <= k < |reg[q]| ==> |reg[q][k].coords| != 2 && |reg[q][k].coords| != 3
  }

  /** Corners before `n` use pairwise different vertices. */
  ghost predicate CornersApart(s: Pass, n: nat)
    requires n <= |s.indices|
  {
    forall j1, j2 :: 0 <= j1 < j2 < n ==> s.indices[j1] != s.indices[j2]
  }

  lemma AvoidStep(input: Input, n: nat, s: Pass, r: Pass)
    requires Aligned(input.vertex) && NoPairsOrTriples(input) && n < |input.streams.positions| == |s.indices|
    requires TuplesAvoidPairsAndTriples(s.registry) && r == Step(input, s, n)
    ensures TuplesAvoidPairsAndTriples(r.registry)
    ensures input.streams.positions[n] in s.registry ==> SplitBy(input, n, s, r)
  {
    var p, t := input.streams.positions[n], TexTuple(input, n);
    StepCases(input, s, n);
    if p in s.registry {
      var es := s.registry[p];
      forall k | 0 <= k < |es| ensures !Matches(es[k].coords, t) {
        NeverMatchesOtherLengths(es[k].coords, t);
      }
      FirstMatchNone(es, t);
    }
  }

  lemma {:induction false} AvoidBefore(input: Input, j: nat)
    requires WellIndexed(input) && NoPairsOrTriples(input) && j <= |input.streams.positions|
    ensures TuplesAvoidPairsAndTriples(Before(input, j).registry)
  {
    if j > 0 {
      AvoidBefore(input, j - 1);
      AvoidOneMore(input, j);
    }
  }

  lemma AvoidOneMore(input: Input, j: nat)
    requires WellIndexed(input) && NoPairsOrTriples(input) && 0 < j <= |input.streams.positions|
    requires TuplesAvoidPairsAndTriples(Before(input, j - 1).registry)
    ensures TuplesAvoidPairsAndTriples(Before(input, j).registry)
  {
    var s := Before(input, j - 1);
    var r := Step(input, s, j - 1);
    assert Before(input, j) == r;
    AvoidStep(input, j - 1, s, r);
  }

  /** An earlier corner's index is the index of a registered entry, so it is not an unseen original position. */
  lemma LinkedAvoidsUnseen(input: Input, n: nat, s: Pass)
    requires WellIndexed(input) && n < |input.streams.positions| && Inv(input, n, s) && Links(input, n, s)
    requires input.streams.positions[n] !in s.registry
    ensures forall j :: 0 <= j < n ==> s.indices[j] != input.streams.positions[n]
  {
    var p := input.streams.positions[n];
    UnseenIndexUnused(input, s, p);
    forall j | 0 <= j < n ensures s.indices[j] != p {
      assert Linked(input, s, j);
    }
  }

  lemma CornersBelowCount(input: Input, n: nat, s: Pass)
    requires WellIndexed(input) && n <= |input.streams.positions| && Inv(input, n, s)
    ensures forall j :: 0 <= j < n ==> s.indices[j] < CountOf(input, s)
  {
    forall j | 0 <= j < n ensures s.indices[j] < CountOf(input, s) {
      assert CornerOk(input, s, j);
    }
  }

  lemma ApartStep(input: Input, n: nat, s: Pass, r: Pass)
    requires WellIndexed(input) && NoPairsOrTriples(input) && n < |input.streams.positions|
    requires Inv(input, n, s) && Links(input, n, s) && TuplesAvoidPairsAndTriples(s.registry)
    requires CornersApart(s, n) && r == Step(input, s, n)
    ensures CornersApart(r, n + 1)
  {
    var p := input.streams.positions[n];
    StepCases(input, s, n);
    AvoidStep(input, n, s, r);
    Unprocessed(input, n, s);
    if p !in s.registry {
      LinkedAvoidsUnseen(input, n, s);
    } else {
      CornersBelowCount(input, n, s);
    }
  }

  lemma {:induction false} ApartBefore(input: Input, j: nat)
    requires WellIndexed(input) && NoPairsOrTriples(input) && j <= |input.streams.positions|
    ensures CornersApart(Before(input, j), j)
  {
    if j > 0 {
      ApartBefore(input, j - 1);
      ApartOneMore(input, j);
    }
  }

  lemma ApartOneMore(input: Input, j: nat)
    requires WellIndexed(input) && NoPairsOrTriples(input) && 0 < j <= |input.streams.positions|
    requires CornersApart(Before(input, j - 1), j - 1)
    ensures CornersApart(Before(input, j), j)
  {
    var n := j - 1;
    var s := Before(input, n);
    var r := Step(input, s, n);
    assert Before(input, j) == r;
    BeforeInv(input, n);
    LinksBefore(input, n);
    AvoidBefore(input, n);
    ApartStep(input, n, s, r);
  }

  /**
   * Tuples of any length other than two or three never pass the comparison, so
   * no two corners share a vertex: every revisit of a position makes a new one.
   */
  lemma NoSharing(input: Input, j1: nat, j2: nat)
    requires WellIndexed(input) && NoPairsOrTriples(input)
    requires j1 < j2 < |input.streams.positions|
    ensures Final(input).indices[j1] != Final(input).indices[j2]
  {
    FinalIsLast(input);
    ApartBefore(input, |input.streams.positions|);
  }

  // ----- no seams, and running the pass again -----

  /** Corners that share a position also share their tuple. */
  ghost predicate ConsistentTuples(input: Input)
  {
    forall j1, j2 ::
      0 <= j1 < |input.streams.positions| && 0 <= j2 < |input.streams.positions| &&
      input.streams.positions[j1] == input.streams.positions[j2]
      ==> TexTuple(input, j1) == TexTuple(input, j2)
  }

  /** The earliest corner with the same position as corner `j`. */
  lemma {:induction false} EarliestEqual(xs: seq<nat>, j: nat) returns (i: nat)
    requires j < |xs|
    ensures i <= j && xs[i] == xs[j] && xs[j] !in xs[..i]
    decreases j
  {
    if xs[j] in xs[..j] {
      var k :| 0 <= k < j && xs[..j][k] == xs[j];
      i := EarliestEqual(xs, k);
    } else {
      i := j;
    }
  }

  /**
   * Without a seam nothing splits: when every position carries one tuple, of
   * length two or three, the index stream comes out as it went in.
   */
  lemma NoSplitWhenConsistent(input: Input, L: nat)
    requires WellIndexed(input) && UniformTuples(input, L) && ConsistentTuples(input)
    ensures Final(input).indices == input.streams.positions
  {
    FinalInv(input);
    forall j | 0 <= j < |input.streams.positions|
      ensures Final(input).indices[j] == input.streams.positions[j]
    {
      var i := EarliestEqual(input.streams.positions, j);
      FirstOccurrence(input, i);
      SeamIff(input, L, i, j);
    }
  }

  /**
   * The pass is idempotent: run again on its own index stream and arrays, with
   * the same texture coordinates, it splits nothing and returns the same indices.
   */
  lemma Idempotent(input: Input, L: nat)
    requires WellIndexed(input) && UniformTuples(input, L)
    ensures var out := Final(input);
      var again := input.(streams := input.streams.(positions := out.indices),
                          vertex := input.vertex.(data := out.vertices),
                          normal := input.normal.(data := out.normals));
      WellIndexed(again) && Final(again).indices == out.indices
  {
    var out := Final(input);
    var again := input.(streams := input.streams.(positions := out.indices),
                        vertex := input.vertex.(data := out.vertices),
                        normal := input.normal.(data := out.normals));
    FinalInv(input);
    OutputBounds(input);
    assert WellIndexed(again);
    assert forall j :: 0 <= j < |again.streams.positions| ==> TexTuple(again, j) == TexTuple(input, j);
    forall j1, j2 | 0 <= j1 < |again.streams.positions| && 0 <= j2 < |again.streams.positions| &&
        again.streams.positions[j1] == again.streams.positions[j2]
      ensures TexTuple(again, j1) == TexTuple(again, j2)
    {
      SeamIff(input, L, j1, j2);
    }
    NoSplitWhenConsistent(again, L);
  }

  // ----- the normal array after a split -----

  /** Two vertices and one normal; the second position is used twice, with different tuples. */
  const SeamWitness := Input(Streams([0, 1, 1], [0, 0, 0], [0, 0, 1]),
                             Attrib([1, 2, 3, 4, 5, 6], 3), Attrib([7, 8, 9], 3), Attrib([0, 0, 5, 5], 2))

  lemma WitnessFirst()
    ensures Step(SeamWitness, Initial(SeamWitness), 0)
      == Pass([0, 1, 1], [1, 2, 3, 4, 5, 6], [7, 8, 9], map[0 := [Entry([0, 0], 0, 1)]])
  {
    assert TexTuple(SeamWitness, 0) == [0, 0];
  }

  lemma WitnessSecond()
    ensures Step(SeamWitness, Pass([0, 1, 1], [1, 2, 3, 4, 5, 6], [7, 8, 9], map[0 := [Entry([0, 0], 0, 1)]]), 1)
      == Pass([0, 1, 1], [1, 2, 3, 4, 5, 6], [7, 8, 9], map[0 := [Entry([0, 0], 0, 1)], 1 := [Entry([0, 0], 1, 1)]])
  {
    assert TexTuple(SeamWitness, 1) == [0, 0];
  }

  lemma WitnessThird()
    ensures Step(SeamWitness, Pass([0, 1, 1], [1, 2, 3, 4, 5, 6], [7, 8, 9], map[0 := [Entry([0, 0], 0, 1)], 1 := [Entry([0, 0], 1, 1)]]), 2).indices
      == [0, 1, 2]
    ensures Step(SeamWitness, Pass([0, 1, 1], [1, 2, 3, 4, 5, 6], [7, 8, 9], map[0 := [Entry([0, 0], 0, 1)], 1 := [Entry([0, 0], 1, 1)]]), 2).vertices
      == [1, 2, 3, 4, 5, 6, 4, 5, 6]
    ensures Step(SeamWitness, Pass([0, 1, 1], [1, 2, 3, 4, 5, 6], [7, 8, 9], map[0 := [Entry([0, 0], 0, 1)], 1 := [Entry([0, 0], 1, 1)]]), 2).normals
      == [7, 8, 9, 1, 2, 3]
  {
    assert TexTuple(SeamWitness, 2) == [5, 5];
    assert !Matches([0, 0], [5, 5]);
    var vertices := [1, 2, 3, 4, 5, 6] + Record([1, 2, 3, 4, 5, 6], 3, 1);
    assert vertices == [1, 2, 3, 4, 5, 6, 4, 5, 6];
    assert Record(vertices, 3, 0) == [1, 2, 3];
  }

  lemma WitnessShape()
    ensures WellIndexed(SeamWitness) && UniformTuples(SeamWitness, 2)
  {
    var w := SeamWitness;
    assert RecordCount(|w.vertex.data|, 3) == 2;
    forall j | 0 <= j < 3
      ensures |TexTuple(w, j)| == 2
    {
      assert w.streams.texCoords[j] <= 1;
      assert RecordStart(w.streams.texCoords[j], 2) + 2 <= |w.tex.data|;
    }
  }

  lemma WitnessRun()
    ensures Final(SeamWitness)
      == Step(SeamWitness, Pass([0, 1, 1], [1, 2, 3, 4, 5, 6], [7, 8, 9], map[0 := [Entry([0, 0], 0, 1)], 1 := [Entry([0, 0], 1, 1)]]), 2)
  {
    var w := SeamWitness;
    var s1 := Pass([0, 1, 1], [1, 2, 3, 4, 5, 6], [7, 8, 9], map[0 := [Entry([0, 0], 0, 1)]]);
    var s2 := Pass([0, 1, 1], [1, 2, 3, 4, 5, 6], [7, 8, 9], map[0 := [Entry([0, 0], 0, 1)], 1 := [Entry([0, 0], 1, 1)]]);
    WitnessFirst();
    WitnessSecond();
    assert Final(w) == RunFrom(w, 1, s1);
    assert RunFrom(w, 1, s1) == RunFrom(w, 2, s2);
    var s3 := Step(w, s2, 2);
    assert RunFrom(w, 2, s2) == RunFrom(w, 3, s3) == s3;
  }

  /**
   * The normal array does not keep pace with the vertex array: two vertices
   * and one normal in, a seam at the second position, and the pass returns
   * three vertices but two normals, the second of them a copy of vertex 0's
   * position rather than of normal 0.
   */
  lemma NormalsLagVertices()
    ensures WellIndexed(SeamWitness) && UniformTuples(SeamWitness, 2)
    ensures var out := Final(SeamWitness);
      && out.indices == [0, 1, 2]
      && out.vertices == [1, 2, 3, 4, 5, 6, 4, 5, 6]
      && out.normals == [7, 8, 9, 1, 2, 3]
      && RecordCount(|out.vertices|, 3) == 3 && RecordCount(|out.normals|, 3) == 2
  {
    WitnessShape();
    WitnessRun();
    WitnessThird();
  }
}
