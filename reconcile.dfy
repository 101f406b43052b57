/**
 * The vertex/UV reconciliation pass of the COLLADA importer (UV-seam
 * splitting), and the rebuild of the texture-coordinate buffer from the
 * registry it fills.
 *
 * `Step` specifies the pass one corner at a time and `RunFrom`/`Final` run it
 * over all corners; `Reconcile` is the pass as the importer runs it, with its
 * loops, proved equal to `Outcome`.
 */
module Reconcile {
  import opened Common
  import opened Matching

  /** An attribute array and its stride. */
  datatype Attrib = Attrib(data: seq<Coord>, stride: nat)

  /** The extracted index streams: positions (VERTEX), normals and texture coordinates, one entry per face-corner. */
  datatype Streams = Streams(positions: seq<nat>, normals: seq<nat>, texCoords: seq<nat>)

  datatype Input = Input(streams: Streams, vertex: Attrib, normal: Attrib, tex: Attrib)

  /** `vertexUVRelation`: for each position index seen so far, its registered entries in order. */
  type Registry = map<nat, seq<Entry>>

  /** The working state of the pass: `indexArray`, `vertexArray`, `normalArray` and `vertexUVRelation`. */
  datatype Pass = Pass(indices: seq<nat>, vertices: seq<Coord>, normals: seq<Coord>, registry: Registry)

  /** What the pass hands back: the rewritten index stream, the grown arrays and the rebuilt texture coordinates. */
  datatype Reconciled = Reconciled(indices: seq<nat>, vertices: seq<Coord>, normals: seq<Coord>, texCoords: seq<Coord>)

  /** Position data whose length is a whole number of records of a positive stride. */
  predicate Aligned(a: Attrib) { a.stride > 0 && |a.data| % a.stride == 0 }

  /**
   * The pass computes `vertexArray.length / vertexStride` as a vertex index, which
   * is a whole number only for aligned position data; with no corners it never divides.
   */
  predicate Runnable(input: Input) { |input.streams.positions| == 0 || Aligned(input.vertex) }

  /**
   * The texture-coordinate tuple of corner `j`: the slice of the texture array at
   * `texIndex * texStride`. When the stream has no entry `j` the source slices at
   * `undefined * texStride`, which is NaN, and gets the empty tuple.
   */
  function TexTuple(input: Input, j: nat): seq<Coord>
  {
    if j < |input.streams.texCoords| then Record(input.tex.data, input.tex.stride, input.streams.texCoords[j])
    else []
  }

  /**
   * What a split pushes onto the normal array: a slice of the (already extended)
   * VERTEX array taken at `normalIndex * normalStride`, as the source does.
   */
  function NormalCopy(input: Input, j: nat, vertices: seq<Coord>): seq<Coord>
  {
    if j < |input.streams.normals| then Record(vertices, input.normal.stride, input.streams.normals[j])
    else []
  }

  function Initial(input: Input): Pass
  {
    Pass(input.streams.positions, input.vertex.data, input.normal.data, map[])
  }

  /** Processing face-corner `j`. */
  function Step(input: Input, s: Pass, j: nat): (r: Pass)
    requires j < |input.streams.positions| == |s.indices|
    requires input.vertex.stride > 0
    ensures |r.indices| == |s.indices|
    ensures forall i :: 0 <= i < |s.indices| && i != j ==> r.indices[i] == s.indices[i]
  {
    var p := input.streams.positions[j];
    var t := TexTuple(input, j);
    if p !in s.registry then
      // first corner of this position: it keeps its index and registers its tuple
      s.(registry := s.registry[p := [Entry(t, p, 1)]])
    else
      var entries := s.registry[p];
      match FirstMatch(entries, t)
      case Some(k) =>
        // an equal tuple is registered: reuse its index
        var e := entries[k];
        s.(indices := s.indices[j := e.index],
           registry := s.registry[p := entries[k := e.(occurred := e.occurred + 1)]])
      case None =>
        // a UV seam: copy the position's record to a new vertex at the end
        var stride := input.vertex.stride;
        var newIndex := RecordCount(|s.vertices|, stride);
        var vertices := s.vertices + Record(s.vertices, stride, p);
        Pass(s.indices[j := newIndex], vertices, s.normals + NormalCopy(input, j, vertices),
             s.registry[p := entries + [Entry(t, newIndex, 1)]])
  }

  /** The state after corners `j`, `j + 1`, … of the stream are processed, starting from `s`. */
  function RunFrom(input: Input, j: nat, s: Pass): (r: Pass)
    requires Runnable(input) && j <= |input.streams.positions| == |s.indices|
    ensures |r.indices| == |s.indices|
    decreases |input.streams.positions| - j
  {
    if j == |input.streams.positions| then s else RunFrom(input, j + 1, Step(input, s, j))
  }

  /** The state after the whole pass over the face-corners. */
  function Final(input: Input): Pass
    requires Runnable(input)
  {
    RunFrom(input, 0, Initial(input))
  }

  /** A number above every position index: `for (key in vertexUVRelation)` visits the keys in ascending order. */
  function Bound(xs: seq<nat>): (b: nat)
    ensures forall i :: 0 <= i < |xs| ==> xs[i] < b
  {
    if |xs| == 0 then 0
    else
      var b := Bound(xs[..|xs| - 1]);
      assert forall i :: 0 <= i < |xs| - 1 ==> xs[..|xs| - 1][i] == xs[i];
      if xs[|xs| - 1] < b then b else xs[|xs| - 1] + 1
  }

  /** `texCoordObjects`: the entries of every key below `bound`, keys ascending, each key's entries in order. */
  function Gather(reg: Registry, bound: nat): seq<Entry>
  {
    if bound == 0 then []
    else Gather(reg, bound - 1) + (if bound - 1 in reg then reg[bound - 1] else [])
  }

  ghost predicate SortedByIndex(es: seq<Entry>)
  {
    forall i, j :: 0 <= i < j < |es| ==> es[i].index <= es[j].index
  }

  /** Inserts `e` before the first entry whose index is not smaller, so that equal indices keep their order. */
  function InsertByIndex(e: Entry, sorted: seq<Entry>): (r: seq<Entry>)
    requires SortedByIndex(sorted)
    ensures multiset(r) == multiset(sorted) + multiset{e}
    ensures SortedByIndex(r)
  {
    if |sorted| == 0 || e.index <= sorted[0].index then [e] + sorted
    else
      assert sorted == [sorted[0]] + sorted[1..];
      assert SortedByIndex(sorted[1..]) by {
        forall i, j | 0 <= i < j < |sorted| - 1 ensures sorted[1..][i].index <= sorted[1..][j].index {
          assert sorted[1..][i] == sorted[i + 1] && sorted[1..][j] == sorted[j + 1];
        }
      }
      var rest := InsertByIndex(e, sorted[1..]);
      LeadsSorted(sorted[0], e, sorted[1..], rest);
      [sorted[0]] + rest
  }

  /** An entry that is below `e` and starts a sorted `tail` also starts any sorted arrangement of `e` and `tail`. */
  lemma LeadsSorted(first: Entry, e: Entry, tail: seq<Entry>, rest: seq<Entry>)
    requires SortedByIndex([first] + tail) && first.index < e.index
    requires SortedByIndex(rest) && multiset(rest) == multiset(tail) + multiset{e}
    ensures SortedByIndex([first] + rest)
  {
    forall x | x in rest ensures first.index <= x.index {
      assert x in multiset(tail) + multiset{e} by { assert x in multiset(rest); }
      if x != e {
        assert x in multiset(tail);
        assert x in tail;
        var k :| 0 <= k < |tail| && tail[k] == x;
        assert ([first] + tail)[0] == first && ([first] + tail)[k + 1] == x;
      }
    }
    var r := [first] + rest;
    forall i, j | 0 <= i < j < |r| ensures r[i].index <= r[j].index {
      if i == 0 {
        assert r[j] == rest[j - 1];
        assert r[j] in rest;
      } else {
        assert r[i] == rest[i - 1] && r[j] == rest[j - 1];
      }
    }
  }

  /** `texCoordObjects.sort((a, b) => a.index - b.index)`: a stable sort by output index. */
  function SortByIndex(es: seq<Entry>): (r: seq<Entry>)
    ensures multiset(r) == multiset(es)
    ensures SortedByIndex(r)
  {
    if |es| == 0 then []
    else
      assert es == [es[0]] + es[1..];
      InsertByIndex(es[0], SortByIndex(es[1..]))
  }

  /** The entries of `es` whose output index is `v`, in their order in `es`. */
  function WithIndex(es: seq<Entry>, v: nat): seq<Entry>
  {
    if |es| == 0 then [] else (if es[0].index == v then [es[0]] else []) + WithIndex(es[1..], v)
  }

  /** Inserting `e` puts it in front of the entries of equal index and moves no other entry past one of equal index. */
  lemma {:induction false} InsertStable(e: Entry, sorted: seq<Entry>, v: nat)
    requires SortedByIndex(sorted)
    ensures WithIndex(InsertByIndex(e, sorted), v) == (if e.index == v then [e] else []) + WithIndex(sorted, v)
  {
    if |sorted| == 0 || e.index <= sorted[0].index {
      assert ([e] + sorted)[1..] == sorted;
    } else {
      var tail := sorted[1..];
      assert SortedByIndex(tail) by {
        forall i, j | 0 <= i < j < |tail| ensures tail[i].index <= tail[j].index {
          assert tail[i] == sorted[i + 1] && tail[j] == sorted[j + 1];
        }
      }
      var rest := InsertByIndex(e, tail);
      assert InsertByIndex(e, sorted) == [sorted[0]] + rest;
      assert ([sorted[0]] + rest)[1..] == rest;
      InsertStable(e, tail, v);
    }
  }

  /** The sort is stable: entries of one output index keep their relative order. */
  lemma {:induction false} SortStable(es: seq<Entry>, v: nat)
    ensures WithIndex(SortByIndex(es), v) == WithIndex(es, v)
  {
    if |es| > 0 {
      SortStable(es[1..], v);
      InsertStable(es[0], SortByIndex(es[1..]), v);
    }
  }

  /** The concatenation of the entries' tuples, in order. */
  function Flatten(es: seq<Entry>): seq<Coord>
  {
    if |es| == 0 then [] else Flatten(es[..|es| - 1]) + es[|es| - 1].coords
  }

  /** The registry entries after the whole pass, sorted by output index. */
  function TexEntries(input: Input): seq<Entry>
    requires Runnable(input)
  {
    var s := Final(input);
    SortByIndex(Gather(s.registry, Bound(input.streams.positions)))
  }

  /** The result of the pass, with the texture buffer rebuilt from the sorted entries. */
  function Outcome(input: Input): Reconciled
    requires Runnable(input)
  {
    var s := Final(input);
    Reconciled(s.indices, s.vertices, s.normals, Flatten(TexEntries(input)))
  }

  /** The reconciliation pass as the importer runs it on copies of the arrays. */
  method Reconcile(input: Input) returns (out: Reconciled)
    requires Runnable(input)
    ensures out == Outcome(input)
  {
    var s := SplitSeams(input);
    var texCoordObjects := CollectEntries(s.registry, Bound(input.streams.positions));
    texCoordObjects := SortByIndex(texCoordObjects);
    var newTexCoords := ConcatTuples(texCoordObjects);
    out := Reconciled(s.indices, s.vertices, s.normals, newTexCoords);
  }

  /** The loop over the face-corners that rewrites `indexArray` and grows `vertexArray` and `normalArray`. */
  method SplitSeams(input: Input) returns (s: Pass)
    requires Runnable(input)
    ensures s == Final(input)
  {
    s := Initial(input);
    for j := 0 to |input.streams.positions|
      invariant |s.indices| == |input.streams.positions|
      invariant forall i :: j <= i < |input.streams.positions| ==> s.indices[i] == input.streams.positions[i]
      invariant RunFrom(input, j, s) == Final(input)
    {
      s := VisitCorner(input, s, j);
    }
  }

  /** The body of the loop over the face-corners, for corner `j`. */
  method VisitCorner(input: Input, s: Pass, j: nat) returns (r: Pass)
    requires j < |input.streams.positions| == |s.indices|
    requires input.vertex.stride > 0
    requires s.indices[j] == input.streams.positions[j]
    ensures r == Step(input, s, j)
  {
    var indexArray, vertexArray, normalArray, vertexUVRelation := s.indices, s.vertices, s.normals, s.registry;
    var vertexStride, normalStride, texStride := input.vertex.stride, input.normal.stride, input.tex.stride;
    var texCoords := [];
    if j < |input.streams.texCoords| {
      var texIndex := input.streams.texCoords[j];
      texCoords := Record(input.tex.data, texStride, texIndex);
    }
    assert texCoords == TexTuple(input, j);
    var indIndex := indexArray[j];
    if indIndex in vertexUVRelation {
      var found := FindMatch(vertexUVRelation[indIndex], texCoords);
      match found {
        case Some(k) =>
          var entries := vertexUVRelation[indIndex];
          var e := entries[k];
          vertexUVRelation := vertexUVRelation[indIndex := entries[k := e.(occurred := e.occurred + 1)]];
          indexArray := indexArray[j := e.index];
          assert Pass(indexArray, vertexArray, normalArray, vertexUVRelation) == Step(input, s, j);
        case None =>
          var newIndex := RecordCount(|vertexArray|, vertexStride);
          vertexUVRelation := vertexUVRelation[indIndex := vertexUVRelation[indIndex] + [Entry(texCoords, newIndex, 1)]];
          vertexArray := vertexArray + Record(vertexArray, vertexStride, indIndex);
          if j < |input.streams.normals| {
            var normalIndex := input.streams.normals[j];
            normalArray := normalArray + Record(vertexArray, normalStride, normalIndex);
          }
          indexArray := indexArray[j := newIndex];
          assert normalArray == s.normals + NormalCopy(input, j, vertexArray);
      }
    } else {
      vertexUVRelation := vertexUVRelation[indIndex := [Entry(texCoords, indIndex, 1)]];
    }
    r := Pass(indexArray, vertexArray, normalArray, vertexUVRelation);
  }

  /** `for (key in vertexUVRelation) texCoordObjects.push.apply(texCoordObjects, vertexUVRelation[key].texCoords)`. */
  method CollectEntries(vertexUVRelation: Registry, bound: nat) returns (texCoordObjects: seq<Entry>)
    ensures texCoordObjects == Gather(vertexUVRelation, bound)
  {
    texCoordObjects := [];
    for key := 0 to bound
      invariant texCoordObjects == Gather(vertexUVRelation, key)
    {
      if key in vertexUVRelation {
        texCoordObjects := texCoordObjects + vertexUVRelation[key];
      }
    }
  }

  /** The accumulation loop `newTexCoords.push.apply(newTexCoords, texCoordObjects[j].array)`. */
  method ConcatTuples(texCoordObjects: seq<Entry>) returns (newTexCoords: seq<Coord>)
    ensures newTexCoords == Flatten(texCoordObjects)
  {
    newTexCoords := [];
    for j := 0 to |texCoordObjects|
      invariant newTexCoords == Flatten(texCoordObjects[..j])
    {
      assert texCoordObjects[..j + 1][..j] == texCoordObjects[..j];
      newTexCoords := newTexCoords + texCoordObjects[j].coords;
    }
    assert texCoordObjects[..|texCoordObjects|] == texCoordObjects;
  }
}
