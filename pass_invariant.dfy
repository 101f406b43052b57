/**
 * What the reconciliation pass keeps true after every corner, for position
 * data that is aligned and position indices that are below the original
 * vertex count:
 *  - the vertex array only grows by whole records and keeps its original prefix;
 *  - the registry has exactly the position indices seen so far as keys, and the
 *    first entry of a position carries that position's own index;
 *  - every registered index and every rewritten corner index is below the
 *    current vertex count and addresses a copy of the corner's original position record;
 *  - no two registered entries share an output index;
 *  - the registry holds one entry per seen position plus one per split vertex.
 */
module PassInvariant {
  import opened Common
  import opened Matching
  import opened Reconcile

  /** Aligned position data, and every position index below the original vertex count. */
  predicate WellIndexed(input: Input)
  {
    Aligned(input.vertex) &&
    forall j :: 0 <= j < |input.streams.positions| ==>
      input.streams.positions[j] < RecordCount(|input.vertex.data|, input.vertex.stride)
  }

  /** The number of whole vertex records in the original position data. */
  function BaseCount(input: Input): nat
    requires Aligned(input.vertex)
  {
    RecordCount(|input.vertex.data|, input.vertex.stride)
  }

  function CountOf(input: Input, s: Pass): nat
    requires Aligned(input.vertex)
  {
    RecordCount(|s.vertices|, input.vertex.stride)
  }

  /** The number of keys of `reg` below `bound`. */
  function KeysBelow(reg: Registry, bound: nat): nat
  {
    if bound == 0 then 0 else KeysBelow(reg, bound - 1) + (if bound - 1 in reg then 1 else 0)
  }

  ghost predicate Grown(input: Input, s: Pass)
    requires Aligned(input.vertex)
  {
    var data := input.vertex.data;
    |s.vertices| % input.vertex.stride == 0 && |data| <= |s.vertices| && s.vertices[..|data|] == data
  }

  ghost predicate KeysSeen(input: Input, n: nat, s: Pass)
    requires n <= |input.streams.positions|
  {
    forall q :: q in s.registry <==> q in input.streams.positions[..n]
  }

  ghost predicate Heads(reg: Registry)
  {
    forall q :: q in reg ==> |reg[q]| > 0 && reg[q][0].index == q
  }

  ghost predicate EntryOk(input: Input, s: Pass, q: nat, k: nat)
    requires Aligned(input.vertex) && q in s.registry && k < |s.registry[q]|
  {
    var e := s.registry[q][k];
    (k > 0 ==> BaseCount(input) <= e.index) &&
    e.index < CountOf(input, s) &&
    Record(s.vertices, input.vertex.stride, e.index) == Record(input.vertex.data, input.vertex.stride, q)
  }

  ghost predicate EntriesOk(input: Input, s: Pass)
    requires Aligned(input.vertex)
  {
    forall q, k :: q in s.registry && 0 <= k < |s.registry[q]| ==> EntryOk(input, s, q, k)
  }

  /** No two registered entries carry the same output index. */
  ghost predicate DistinctIndices(reg: Registry)
  {
    forall q1, k1, q2, k2 ::
      q1 in reg && q2 in reg && 0 <= k1 < |reg[q1]| && 0 <= k2 < |reg[q2]| &&
      reg[q1][k1].index == reg[q2][k2].index
      ==> q1 == q2 && k1 == k2
  }

  ghost predicate CornerOk(input: Input, s: Pass, j: nat)
    requires Aligned(input.vertex) && j < |input.streams.positions| == |s.indices|
  {
    s.indices[j] < CountOf(input, s) &&
    Record(s.vertices, input.vertex.stride, s.indices[j]) ==
      Record(input.vertex.data, input.vertex.stride, input.streams.positions[j])
  }

  ghost predicate CornersOk(input: Input, n: nat, s: Pass)
    requires Aligned(input.vertex) && n <= |input.streams.positions| == |s.indices|
  {
    forall j :: 0 <= j < n ==> CornerOk(input, s, j)
  }

  /** One registered entry per seen position, plus one per vertex appended by a split. */
  ghost predicate Counted(input: Input, s: Pass)
    requires Aligned(input.vertex)
  {
    |Gather(s.registry, BaseCount(input))| + BaseCount(input) ==
      KeysBelow(s.registry, BaseCount(input)) + CountOf(input, s)
  }

  ghost predicate Inv(input: Input, n: nat, s: Pass)
    requires WellIndexed(input) && n <= |input.streams.positions|
  {
    InvParts(input, n, s)
  }

  /** The nine parts of `Inv`; callers that need the invariant only as a whole see it as one fact. */
  ghost predicate InvParts(input: Input, n: nat, s: Pass)
    requires WellIndexed(input) && n <= |input.streams.positions|
  {
    && |s.indices| == |input.streams.positions|
    && (forall j :: n <= j < |input.streams.positions| ==> s.indices[j] == input.streams.positions[j])
    && Grown(input, s)
    && KeysSeen(input, n, s)
    && Heads(s.registry)
    && EntriesOk(input, s)
    && DistinctIndices(s.registry)
    && CornersOk(input, n, s)
    && Counted(input, s)
  }

  // ----- arithmetic on records -----

  lemma RecordAppend(v: seq<Coord>, w: seq<Coord>, stride: nat, u: nat)
    requires RecordStart(u, stride) + stride <= |v|
    ensures Record(v + w, stride, u) == Record(v, stride, u)
  {
    SliceOfAppend(v, w, RecordStart(u, stride), RecordStart(u, stride) + stride);
  }

  lemma RecordPrefix(v: seq<Coord>, data: seq<Coord>, stride: nat, u: nat)
    requires |data| <= |v| && v[..|data|] == data && RecordStart(u, stride) + stride <= |data|
    ensures Record(v, stride, u) == Record(data, stride, u)
  {
    SliceOfPrefix(v, data, RecordStart(u, stride), RecordStart(u, stride) + stride);
  }

  lemma RecordAtEnd(v: seq<Coord>, w: seq<Coord>, stride: nat)
    requires 0 < stride && |v| % stride == 0 && |w| == stride
    ensures Record(v + w, stride, RecordCount(|v|, stride)) == w
  {
    OneMoreRecord(|v|, stride);
    var lo := RecordStart(RecordCount(|v|, stride), stride);
    SliceWithin(v + w, lo, lo + stride);
    assert (v + w)[|v|..|v| + stride] == w;
  }

  // ----- the registry as `for (key in …)` sees it -----

  lemma GatherIgnores(reg: Registry, p: nat, l: seq<Entry>, bound: nat)
    requires bound <= p
    ensures Gather(reg[p := l], bound) == Gather(reg, bound)
    ensures KeysBelow(reg[p := l], bound) == KeysBelow(reg, bound)
  {
    if bound > 0 {
      GatherIgnores(reg, p, l, bound - 1);
    }
  }

  lemma {:induction false} GatherUpdate(reg: Registry, p: nat, l: seq<Entry>, bound: nat)
    requires p < bound
    ensures |Gather(reg[p := l], bound)| + (if p in reg then |reg[p]| else 0) == |Gather(reg, bound)| + |l|
    ensures KeysBelow(reg[p := l], bound) == KeysBelow(reg, bound) + (if p in reg then 0 else 1)
  {
    if p == bound - 1 {
      GatherIgnores(reg, p, l, bound - 1);
    } else {
      GatherUpdate(reg, p, l, bound - 1);
    }
  }

  // ----- registry-level facts -----

  lemma GatherEmpty(bound: nat)
    ensures Gather(map[], bound) == [] && KeysBelow(map[], bound) == 0
  {
    if bound > 0 { GatherEmpty(bound - 1); }
  }

  /** `reg2` has the keys, the entry counts and the entry indices of `reg1`. */
  ghost predicate SameIndexing(reg1: Registry, reg2: Registry)
  {
    && (forall q :: q in reg1 <==> q in reg2)
    && (forall q :: q in reg1 ==> |reg1[q]| == |reg2[q]|)
    && (forall q, k :: q in reg1 && 0 <= k < |reg1[q]| ==> reg1[q][k].index == reg2[q][k].index)
  }

  lemma CountOccurrence(reg: Registry, p: nat, k: nat)
    requires p in reg && k < |reg[p]|
    ensures SameIndexing(reg, reg[p := reg[p][k := reg[p][k].(occurred := reg[p][k].occurred + 1)]])
  {
  }

  lemma SameIndexingKeeps(reg1: Registry, reg2: Registry)
    requires SameIndexing(reg1, reg2)
    ensures Heads(reg1) ==> Heads(reg2)
    ensures DistinctIndices(reg1) ==> DistinctIndices(reg2)
  {
  }

  lemma {:induction false} SameIndexingGather(reg1: Registry, reg2: Registry, bound: nat)
    requires SameIndexing(reg1, reg2)
    ensures |Gather(reg2, bound)| == |Gather(reg1, bound)|
    ensures KeysBelow(reg2, bound) == KeysBelow(reg1, bound)
  {
    if bound > 0 { SameIndexingGather(reg1, reg2, bound - 1); }
  }

  lemma DistinctFresh(reg: Registry, p: nat, e: Entry)
    requires DistinctIndices(reg) && p !in reg
    requires forall q, k :: q in reg && 0 <= k < |reg[q]| ==> reg[q][k].index != e.index
    ensures DistinctIndices(reg[p := [e]])
  {
  }

  lemma DistinctAppend(reg: Registry, p: nat, e: Entry)
    requires DistinctIndices(reg) && p in reg
    requires forall q, k :: q in reg && 0 <= k < |reg[q]| ==> reg[q][k].index != e.index
    ensures DistinctIndices(reg[p := reg[p] + [e]])
  {
  }

  lemma HeadsFresh(reg: Registry, p: nat, e: Entry)
    requires Heads(reg) && e.index == p
    ensures Heads(reg[p := [e]])
  {
  }

  lemma HeadsAppend(reg: Registry, p: nat, e: Entry)
    requires Heads(reg) && p in reg
    ensures Heads(reg[p := reg[p] + [e]])
  {
  }

  // ----- state-level facts -----

  lemma KeysExtend(input: Input, n: nat, s: Pass, r: Pass)
    requires n < |input.streams.positions|
    requires KeysSeen(input, n, s)
    requires forall q :: q in r.registry <==> q in s.registry || q == input.streams.positions[n]
    ensures KeysSeen(input, n + 1, r)
  {
    var pos := input.streams.positions;
    assert pos[..n + 1] == pos[..n] + [pos[n]];
  }

  /** Every registered index is below the current vertex count. */
  lemma IndicesBelowCount(input: Input, s: Pass)
    requires Aligned(input.vertex) && EntriesOk(input, s)
    ensures forall q, k :: q in s.registry && 0 <= k < |s.registry[q]| ==> s.registry[q][k].index < CountOf(input, s)
  {
    forall q, k | q in s.registry && 0 <= k < |s.registry[q]|
      ensures s.registry[q][k].index < CountOf(input, s)
    {
      assert EntryOk(input, s, q, k);
    }
  }

  /** An original position index not yet registered is nobody's output index. */
  lemma UnseenIndexUnused(input: Input, s: Pass, p: nat)
    requires Aligned(input.vertex) && Heads(s.registry) && EntriesOk(input, s)
    requires p !in s.registry && p < BaseCount(input)
    ensures forall q, k :: q in s.registry && 0 <= k < |s.registry[q]| ==> s.registry[q][k].index != p
  {
    forall q, k | q in s.registry && 0 <= k < |s.registry[q]|
      ensures s.registry[q][k].index != p
    {
      if k > 0 { assert EntryOk(input, s, q, k); }
    }
  }

  /** Registering nothing new and moving no vertex keeps every entry valid. */
  lemma EntriesSameIndexing(input: Input, s: Pass, r: Pass)
    requires Aligned(input.vertex) && EntriesOk(input, s)
    requires r.vertices == s.vertices && SameIndexing(s.registry, r.registry)
    ensures EntriesOk(input, r)
  {
    forall q, k | q in r.registry && 0 <= k < |r.registry[q]| ensures EntryOk(input, r, q, k) {
      assert EntryOk(input, s, q, k);
    }
  }

  lemma EntriesFresh(input: Input, s: Pass, r: Pass, p: nat, e: Entry)
    requires Aligned(input.vertex) && EntriesOk(input, s)
    requires r.vertices == s.vertices && r.registry == s.registry[p := [e]]
    requires e.index < CountOf(input, s)
    requires Record(s.vertices, input.vertex.stride, e.index) == Record(input.vertex.data, input.vertex.stride, p)
    ensures EntriesOk(input, r)
  {
    forall q, k | q in r.registry && 0 <= k < |r.registry[q]| ensures EntryOk(input, r, q, k) {
      if q != p { assert EntryOk(input, s, q, k); }
    }
  }

  lemma EntriesAppend(input: Input, s: Pass, r: Pass, p: nat, e: Entry)
    requires Aligned(input.vertex) && EntriesOk(input, s) && p in s.registry
    requires r.registry == s.registry[p := s.registry[p] + [e]]
    requires CountOf(input, s) <= CountOf(input, r)
    requires forall u: nat :: u < CountOf(input, s) ==>
      Record(r.vertices, input.vertex.stride, u) == Record(s.vertices, input.vertex.stride, u)
    requires BaseCount(input) <= e.index < CountOf(input, r)
    requires Record(r.vertices, input.vertex.stride, e.index) == Record(input.vertex.data, input.vertex.stride, p)
    ensures EntriesOk(input, r)
  {
    forall q, k | q in r.registry && 0 <= k < |r.registry[q]| ensures EntryOk(input, r, q, k) {
      if q != p || k < |s.registry[p]| {
        assert EntryOk(input, s, q, k);
        assert r.registry[q][k] == s.registry[q][k];
      }
    }
  }

  lemma CornersExtend(input: Input, n: nat, s: Pass, r: Pass)
    requires Aligned(input.vertex)
    requires n < |input.streams.positions| == |s.indices| == |r.indices|
    requires CornersOk(input, n, s)
    requires forall j :: 0 <= j < n ==> r.indices[j] == s.indices[j]
    requires CountOf(input, s) <= CountOf(input, r)
    requires forall u: nat :: u < CountOf(input, s) ==>
      Record(r.vertices, input.vertex.stride, u) == Record(s.vertices, input.vertex.stride, u)
    requires CornerOk(input, r, n)
    ensures CornersOk(input, n + 1, r)
  {
    forall j | 0 <= j < n + 1 ensures CornerOk(input, r, j) {
      if j < n { assert CornerOk(input, s, j); }
    }
  }

  /** Pointing corner `n` at another copy of its position record, with the vertex array unchanged. */
  lemma CornersRetarget(input: Input, n: nat, s: Pass, r: Pass, u: nat)
    requires Aligned(input.vertex)
    requires n < |input.streams.positions| == |s.indices|
    requires CornersOk(input, n, s)
    requires r.vertices == s.vertices && r.indices == s.indices[n := u]
    requires u < CountOf(input, s)
    requires Record(s.vertices, input.vertex.stride, u) == Record(input.vertex.data, input.vertex.stride, input.streams.positions[n])
    ensures CornersOk(input, n + 1, r)
  {
    forall j | 0 <= j < n + 1 ensures CornerOk(input, r, j) {
      if j < n { assert CornerOk(input, s, j); }
    }
  }

  // ----- the three kinds of step -----

  lemma InitialInv(input: Input)
    requires WellIndexed(input)
    ensures Inv(input, 0, Initial(input))
  {
    var s := Initial(input);
    var data := input.vertex.data;
    assert s.vertices[..|data|] == data;
    GatherEmpty(BaseCount(input));
  }

  /** A position index below the original count addresses an original record, intact in the grown array. */
  lemma OriginalRecord(input: Input, s: Pass, p: nat)
    requires Aligned(input.vertex) && Grown(input, s) && p < BaseCount(input)
    ensures p < CountOf(input, s)
    ensures RecordStart(p, input.vertex.stride) + input.vertex.stride <= |input.vertex.data|
    ensures Record(s.vertices, input.vertex.stride, p) == Record(input.vertex.data, input.vertex.stride, p)
  {
    var stride, data := input.vertex.stride, input.vertex.data;
    CountMono(|data|, |s.vertices|, stride);
    RecordInside(p, |data|, stride);
    RecordPrefix(s.vertices, data, stride, p);
  }

  /** `r` is `s` after the first corner `n` of its position registered the position under its own index. */
  ghost predicate FirstBy(input: Input, n: nat, s: Pass, r: Pass)
    requires n < |input.streams.positions|
  {
    var p := input.streams.positions[n];
    r == s.(registry := s.registry[p := [Entry(TexTuple(input, n), p, 1)]])
  }

  /** `r` is `s` after corner `n` took the index of entry `k` of its position. */
  ghost predicate ReusedBy(input: Input, n: nat, s: Pass, k: nat, r: Pass)
    requires n < |input.streams.positions| == |s.indices|
    requires input.streams.positions[n] in s.registry && k < |s.registry[input.streams.positions[n]]|
  {
    var p := input.streams.positions[n];
    var e := s.registry[p][k];
    && r.indices == s.indices[n := e.index]
    && r.vertices == s.vertices
    && r.normals == s.normals
    && r.registry == s.registry[p := s.registry[p][k := e.(occurred := e.occurred + 1)]]
  }

  /** `r` is `s` after corner `n` split off a new vertex, a copy of its position's record. */
  ghost predicate SplitBy(input: Input, n: nat, s: Pass, r: Pass)
    requires n < |input.streams.positions| == |s.indices| && Aligned(input.vertex)
    requires input.streams.positions[n] in s.registry
  {
    var p := input.streams.positions[n];
    var c := CountOf(input, s);
    && r.indices == s.indices[n := c]
    && r.vertices == s.vertices + Record(s.vertices, input.vertex.stride, p)
    && r.normals == s.normals + NormalCopy(input, n, r.vertices)
    && r.registry == s.registry[p := s.registry[p] + [Entry(TexTuple(input, n), c, 1)]]
  }

  /** Which of the three steps corner `n` takes. */
  lemma StepCases(input: Input, s: Pass, n: nat)
    requires n < |input.streams.positions| == |s.indices| && Aligned(input.vertex)
    ensures var p := input.streams.positions[n];
      && (p !in s.registry ==> FirstBy(input, n, s, Step(input, s, n)))
      && (p in s.registry && FirstMatch(s.registry[p], TexTuple(input, n)).None? ==> SplitBy(input, n, s, Step(input, s, n)))
    ensures var p := input.streams.positions[n];
      p in s.registry && FirstMatch(s.registry[p], TexTuple(input, n)).Some? ==>
        var k := FirstMatch(s.registry[p], TexTuple(input, n)).value;
        k < |s.registry[p]| && ReusedBy(input, n, s, k, Step(input, s, n))
  {
  }

  /** The first corner of a position registers it under its own index. */
  lemma FirstInv(input: Input, n: nat, s: Pass, r: Pass)
    requires WellIndexed(input) && n < |input.streams.positions|
    requires Inv(input, n, s)
    requires input.streams.positions[n] !in s.registry && FirstBy(input, n, s, r)
    ensures Inv(input, n + 1, r)
  {
    var p := input.streams.positions[n];
    var e := Entry(TexTuple(input, n), p, 1);
    OriginalRecord(input, s, p);
    KeysExtend(input, n, s, r);
    EntriesFresh(input, s, r, p, e);
    UnseenIndexUnused(input, s, p);
    DistinctFresh(s.registry, p, e);
    HeadsFresh(s.registry, p, e);
    CornersExtend(input, n, s, r);
    GatherUpdate(s.registry, p, [e], BaseCount(input));
  }

  /** A reusing corner leaves the keys, the entry counts, the entry indices and the vertex array alone. */
  lemma ReuseKeepsIndexing(input: Input, n: nat, s: Pass, k: nat, r: Pass)
    requires n < |input.streams.positions| == |s.indices|
    requires input.streams.positions[n] in s.registry && k < |s.registry[input.streams.positions[n]]|
    requires ReusedBy(input, n, s, k, r)
    ensures SameIndexing(s.registry, r.registry) && r.vertices == s.vertices
  {
    CountOccurrence(s.registry, input.streams.positions[n], k);
  }

  /** A step that changes no key, no entry index and no vertex keeps the registry part of the invariant. */
  lemma RegistryKept(input: Input, n: nat, s: Pass, r: Pass)
    requires WellIndexed(input) && n < |input.streams.positions|
    requires input.streams.positions[n] in s.registry
    requires SameIndexing(s.registry, r.registry) && r.vertices == s.vertices
    requires KeysSeen(input, n, s) && Heads(s.registry) && EntriesOk(input, s)
    requires DistinctIndices(s.registry) && Counted(input, s)
    ensures KeysSeen(input, n + 1, r) && Heads(r.registry) && EntriesOk(input, r)
    ensures DistinctIndices(r.registry) && Counted(input, r)
  {
    SameIndexingKeeps(s.registry, r.registry);
    SameIndexingGather(s.registry, r.registry, BaseCount(input));
    KeysExtend(input, n, s, r);
    EntriesSameIndexing(input, s, r);
  }

  /** A corner whose tuple matches a registered entry takes that entry's index; nothing else moves. */
  lemma ReuseInv(input: Input, n: nat, s: Pass, k: nat, r: Pass)
    requires WellIndexed(input) && n < |input.streams.positions|
    requires Inv(input, n, s)
    requires input.streams.positions[n] in s.registry
    requires k < |s.registry[input.streams.positions[n]]|
    requires ReusedBy(input, n, s, k, r)
    ensures Inv(input, n + 1, r)
  {
    var p := input.streams.positions[n];
    ReuseKeepsIndexing(input, n, s, k, r);
    assert EntryOk(input, s, p, k);
    RetargetInv(input, n, s, r, s.registry[p][k].index);
  }

  /** Corner `n` now uses vertex `u`, a copy of its position record; keys, entry indices and vertices stay. */
  lemma RetargetInv(input: Input, n: nat, s: Pass, r: Pass, u: nat)
    requires WellIndexed(input) && n < |input.streams.positions|
    requires Inv(input, n, s)
    requires input.streams.positions[n] in s.registry
    requires SameIndexing(s.registry, r.registry) && r.vertices == s.vertices && r.indices == s.indices[n := u]
    requires u < CountOf(input, s)
    requires Record(s.vertices, input.vertex.stride, u) == Record(input.vertex.data, input.vertex.stride, input.streams.positions[n])
    ensures Inv(input, n + 1, r)
  {
    RegistryKept(input, n, s, r);
    CornersRetarget(input, n, s, r, u);
  }

  /** The vertex array after a split: one more record, a copy of the position's original record. */
  lemma SplitVertices(input: Input, n: nat, s: Pass, r: Pass)
    requires WellIndexed(input) && n < |input.streams.positions| == |s.indices|
    requires Grown(input, s) && input.streams.positions[n] in s.registry
    requires SplitBy(input, n, s, r)
    ensures Grown(input, r)
    ensures CountOf(input, r) == CountOf(input, s) + 1
    ensures BaseCount(input) <= CountOf(input, s)
    ensures forall u: nat :: u < CountOf(input, s) ==>
      Record(r.vertices, input.vertex.stride, u) == Record(s.vertices, input.vertex.stride, u)
    ensures Record(r.vertices, input.vertex.stride, CountOf(input, s)) ==
      Record(input.vertex.data, input.vertex.stride, input.streams.positions[n])
  {
    var stride, data := input.vertex.stride, input.vertex.data;
    var p := input.streams.positions[n];
    var c := CountOf(input, s);
    var copy := Record(s.vertices, stride, p);
    OriginalRecord(input, s, p);
    RecordInside(p, |s.vertices|, stride);
    assert |copy| == stride;
    OneMoreRecord(|s.vertices|, stride);
    RecordAtEnd(s.vertices, copy, stride);
    assert r.vertices[..|data|] == s.vertices[..|data|];
    CountMono(|data|, |s.vertices|, stride);
    forall u: nat | u < c ensures Record(r.vertices, stride, u) == Record(s.vertices, stride, u) {
      RecordInside(u, |s.vertices|, stride);
      RecordAppend(s.vertices, copy, stride, u);
    }
  }

  lemma SplitRegistry(input: Input, n: nat, s: Pass, r: Pass)
    requires WellIndexed(input) && n < |input.streams.positions| == |s.indices|
    requires input.streams.positions[n] in s.registry
    requires SplitBy(input, n, s, r)
    requires KeysSeen(input, n, s) && Heads(s.registry) && EntriesOk(input, s)
    requires DistinctIndices(s.registry) && Counted(input, s)
    requires CountOf(input, r) == CountOf(input, s) + 1
    requires BaseCount(input) <= CountOf(input, s)
    requires forall u: nat :: u < CountOf(input, s) ==>
      Record(r.vertices, input.vertex.stride, u) == Record(s.vertices, input.vertex.stride, u)
    requires Record(r.vertices, input.vertex.stride, CountOf(input, s)) ==
      Record(input.vertex.data, input.vertex.stride, input.streams.positions[n])
    ensures KeysSeen(input, n + 1, r) && Heads(r.registry) && EntriesOk(input, r)
    ensures DistinctIndices(r.registry) && Counted(input, r)
  {
    var p := input.streams.positions[n];
    var e := Entry(TexTuple(input, n), CountOf(input, s), 1);
    KeysExtend(input, n, s, r);
    EntriesAppend(input, s, r, p, e);
    IndicesBelowCount(input, s);
    DistinctAppend(s.registry, p, e);
    HeadsAppend(s.registry, p, e);
    GatherUpdate(s.registry, p, s.registry[p] + [e], BaseCount(input));
  }

  /** A corner whose tuple matches nothing gets a copy of its position record at the end. */
  lemma SplitInv(input: Input, n: nat, s: Pass, r: Pass)
    requires WellIndexed(input) && n < |input.streams.positions|
    requires Inv(input, n, s)
    requires input.streams.positions[n] in s.registry && SplitBy(input, n, s, r)
    ensures Inv(input, n + 1, r)
  {
    SplitVertices(input, n, s, r);
    SplitRegistry(input, n, s, r);
    CornersExtend(input, n, s, r);
  }

  lemma StepInv(input: Input, n: nat, s: Pass, r: Pass)
    requires WellIndexed(input) && n < |input.streams.positions|
    requires Inv(input, n, s) && r == Step(input, s, n)
    ensures Inv(input, n + 1, r)
  {
    var p := input.streams.positions[n];
    StepCases(input, s, n);
    if p !in s.registry {
      FirstInv(input, n, s, r);
    } else {
      match FirstMatch(s.registry[p], TexTuple(input, n))
      case Some(k) => ReuseInv(input, n, s, k, r);
      case None => SplitInv(input, n, s, r);
    }
  }

  /** Running the rest of the pass from a state that satisfies the invariant ends in one that does. */
  lemma {:induction false} RunFromInv(input: Input, k: nat, s: Pass)
    requires WellIndexed(input) && k <= |input.streams.positions|
    requires Inv(input, k, s)
    ensures Inv(input, |input.streams.positions|, RunFrom(input, k, s))
    decreases |input.streams.positions| - k
  {
    if k < |input.streams.positions| {
      var r := Step(input, s, k);
      StepInv(input, k, s, r);
      RunFromInv(input, k + 1, r);
    }
  }

  /** The invariant holds once every corner has been processed. */
  lemma FinalInv(input: Input)
    requires WellIndexed(input)
    ensures Inv(input, |input.streams.positions|, Final(input))
  {
    InitialInv(input);
    RunFromInv(input, 0, Initial(input));
  }
}
