/**
 * What one geometry's import produces: when it fails, which channel streams
 * it extracts, the zero-filled texture buffer of a model without texture
 * coordinates, and the counts and bounds of a reconciled model.
 */
module ImportFacts {
  import opened Common
  import opened Collada
  import opened Extraction
  import opened Reconcile
  import opened PassInvariant
  import opened Seams
  import opened TexCoords
  import opened Importer

  // ----- errors -----

  /** Every POSITION input of `<vertices>` from input `j` on names a source. */
  ghost predicate PositionSourcesFrom(g: Geometry, j: nat)
  {
    forall i :: j <= i < |g.verticesInputs| && g.verticesInputs[i].semantic == Position ==>
      g.verticesInputs[i].source in g.sources
  }

  /** Every NORMAL and TEXCOORD input of the `<polylist>` from entry `k` on names a source. */
  ghost predicate ChannelSourcesFrom(g: Geometry, k: nat)
  {
    forall i :: k <= i < |g.sourceTypes| && (g.sourceTypes[i].semantic == Normal || g.sourceTypes[i].semantic == TexCoord) ==>
      g.sourceTypes[i].key in g.sources
  }

  lemma {:induction false} PositionsFail(g: Geometry, j: nat, m: LoadedModel)
    requires j <= |g.verticesInputs|
    ensures ReadPositions(g, j, m).error.None? <==> PositionSourcesFrom(g, j)
    ensures ReadPositions(g, j, m).error.Some? ==> ReadPositions(g, j, m).error.value.id !in g.sources
    decreases |g.verticesInputs| - j
  {
    if j < |g.verticesInputs| {
      var input := g.verticesInputs[j];
      if input.semantic != Position {
        PositionsFail(g, j + 1, m);
      } else if input.source in g.sources {
        PositionsFail(g, j + 1, m.(vertices := BufferOf(g.sources[input.source])));
      }
    }
  }

  lemma {:induction false} ChannelsFail(g: Geometry, k: nat, width: nat, m: LoadedModel)
    requires k <= |g.sourceTypes| && width > 0
    ensures ReadChannels(g, k, width, m).error.None? <==> ChannelSourcesFrom(g, k)
    ensures ReadChannels(g, k, width, m).error.Some? ==> ReadChannels(g, k, width, m).error.value.id !in g.sources
    decreases |g.sourceTypes| - k
  {
    if k < |g.sourceTypes| {
      var s := ReadChannel(g, g.sourceTypes[k], width, m);
      if s.error.None? {
        ChannelsFail(g, k + 1, width, s.model);
      }
    }
  }

  /**
   * The import of a geometry fails exactly when a POSITION input, or a NORMAL
   * or TEXCOORD input of the polylist, names a source the mesh does not have;
   * the error carries that name.
   */
  lemma ImportFails(g: Geometry)
    requires ImportDefined(g)
    ensures ImportSpec(g).error.None? <==> PositionSourcesFrom(g, 0) && ChannelSourcesFrom(g, 0)
    ensures ImportSpec(g).error.Some? ==> ImportSpec(g).error.value.id !in g.sources
  {
    PositionsFail(g, 0, EmptyModel());
    var s := ReadPositions(g, 0, EmptyModel());
    if s.error.None? {
      ChannelsFail(g, 0, MaxOffsetOf(g.sourceTypes) + 1, s.model);
    }
  }

  // ----- which channel a stream comes from -----

  /** The polylist inputs that write `sem`'s index stream: VERTEX only when it names the `<vertices>` element. */
  predicate Writes(g: Geometry, st: SourceType, sem: Semantic)
  {
    st.semantic == sem && (sem == Vertex ==> st.key == g.verticesId)
  }

  /** Entry `i`, at or after `k`, is the last polylist input that writes `sem`'s stream. */
  predicate LastWriter(g: Geometry, k: nat, i: nat, sem: Semantic)
  {
    && k <= i < |g.sourceTypes| && Writes(g, g.sourceTypes[i], sem)
    && forall i' :: i < i' < |g.sourceTypes| ==> !Writes(g, g.sourceTypes[i'], sem)
  }

  function StreamOf(m: LoadedModel, sem: Semantic): seq<nat>
  {
    match sem
    case Vertex => m.indices.vertexIndices
    case Normal => m.indices.normalIndices
    case TexCoord => m.indices.texCoordIndices
    case _ => []
  }

  lemma ChannelStream(g: Geometry, st: SourceType, width: nat, m: LoadedModel, sem: Semantic)
    requires width > 0 && ReadChannel(g, st, width, m).error.None?
    requires sem == Vertex || sem == Normal || sem == TexCoord
    ensures StreamOf(ReadChannel(g, st, width, m).model, sem) ==
      if Writes(g, st, sem) then Strided(g.p, st.offset, width) else StreamOf(m, sem)
  {
  }

  /** After the channel loop, a stream no input from `k` on writes stays as it was. */
  lemma {:induction false} UnwrittenStreamKept(g: Geometry, k: nat, width: nat, m: LoadedModel, sem: Semantic)
    requires k <= |g.sourceTypes| && width > 0 && ReadChannels(g, k, width, m).error.None?
    requires sem == Vertex || sem == Normal || sem == TexCoord
    requires forall i :: k <= i < |g.sourceTypes| ==> !Writes(g, g.sourceTypes[i], sem)
    ensures StreamOf(ReadChannels(g, k, width, m).model, sem) == StreamOf(m, sem)
    decreases |g.sourceTypes| - k
  {
    if k < |g.sourceTypes| {
      var s := ReadChannel(g, g.sourceTypes[k], width, m);
      assert ReadChannels(g, k, width, m) == ReadChannels(g, k + 1, width, s.model);
      ChannelStream(g, g.sourceTypes[k], width, m, sem);
      UnwrittenStreamKept(g, k + 1, width, s.model, sem);
    }
  }

  /**
   * After the channel loop, the index stream of a semantic is the stream
   * extracted for the last polylist input of that semantic.
   */
  lemma {:induction false} LastChannelWins(g: Geometry, k: nat, width: nat, m: LoadedModel, sem: Semantic, i: nat)
    requires k <= |g.sourceTypes| && width > 0 && ReadChannels(g, k, width, m).error.None?
    requires sem == Vertex || sem == Normal || sem == TexCoord
    requires LastWriter(g, k, i, sem)
    ensures StreamOf(ReadChannels(g, k, width, m).model, sem) == Strided(g.p, g.sourceTypes[i].offset, width)
    decreases |g.sourceTypes| - k
  {
    var s := ReadChannel(g, g.sourceTypes[k], width, m);
    assert ReadChannels(g, k, width, m) == ReadChannels(g, k + 1, width, s.model);
    ChannelStream(g, g.sourceTypes[k], width, m, sem);
    if k < i {
      LastChannelWins(g, k + 1, width, s.model, sem, i);
    } else {
      UnwrittenStreamKept(g, k + 1, width, s.model, sem);
    }
  }

  // ----- which source a buffer comes from -----

  /** Input `i`, at or after `j`, is the last POSITION input of `<vertices>`. */
  predicate LastPosition(g: Geometry, j: nat, i: nat)
  {
    && j <= i < |g.verticesInputs| && g.verticesInputs[i].semantic == Position
    && forall i' :: i < i' < |g.verticesInputs| ==> g.verticesInputs[i'].semantic != Position
  }

  /** Without a POSITION input from `j` on, the vertex buffer stays as it was. */
  lemma {:induction false} NoPositionKeeps(g: Geometry, j: nat, m: LoadedModel)
    requires j <= |g.verticesInputs|
    requires forall i :: j <= i < |g.verticesInputs| ==> g.verticesInputs[i].semantic != Position
    ensures ReadPositions(g, j, m) == Staged(m, None)
    decreases |g.verticesInputs| - j
  {
    if j < |g.verticesInputs| {
      NoPositionKeeps(g, j + 1, m);
    }
  }

  /**
   * When the `<vertices>` loop succeeds, the vertex buffer is the buffer of the
   * source named by the last POSITION input.
   */
  lemma {:induction false} LastPositionWins(g: Geometry, j: nat, m: LoadedModel, i: nat)
    requires j <= |g.verticesInputs| && ReadPositions(g, j, m).error.None?
    requires LastPosition(g, j, i)
    ensures g.verticesInputs[i].source in g.sources
    ensures ReadPositions(g, j, m).model.vertices == BufferOf(g.sources[g.verticesInputs[i].source])
    decreases |g.verticesInputs| - j
  {
    var input := g.verticesInputs[j];
    if j < i {
      if input.semantic != Position {
        LastPositionWins(g, j + 1, m, i);
      } else {
        LastPositionWins(g, j + 1, m.(vertices := BufferOf(g.sources[input.source])), i);
      }
    } else {
      NoPositionKeeps(g, j + 1, m.(vertices := BufferOf(g.sources[input.source])));
    }
  }

  /** A geometry read without error has the last POSITION input's source as its vertex buffer. */
  lemma PreparedVertexBuffer(g: Geometry, i: nat)
    requires Prepared(g).error.None? && LastPosition(g, 0, i)
    ensures g.verticesInputs[i].source in g.sources
    ensures Prepared(g).model.vertices == BufferOf(g.sources[g.verticesInputs[i].source])
  {
    LastPositionWins(g, 0, EmptyModel(), i);
  }

  /** The buffer a NORMAL or TEXCOORD input of the polylist replaces. */
  function BufferFor(m: LoadedModel, sem: Semantic): Buffer
    requires sem == Normal || sem == TexCoord
  {
    if sem == Normal then m.normals else m.textureCoords
  }

  lemma ChannelBuffer(g: Geometry, st: SourceType, width: nat, m: LoadedModel, sem: Semantic)
    requires width > 0 && ReadChannel(g, st, width, m).error.None?
    requires sem == Normal || sem == TexCoord
    ensures st.semantic == sem ==> st.key in g.sources
    ensures BufferFor(ReadChannel(g, st, width, m).model, sem) ==
      if st.semantic == sem then BufferOf(g.sources[st.key]) else BufferFor(m, sem)
  {
  }

  /** After the channel loop, a buffer no input from `k` on replaces stays as it was. */
  lemma {:induction false} UnwrittenBufferKept(g: Geometry, k: nat, width: nat, m: LoadedModel, sem: Semantic)
    requires k <= |g.sourceTypes| && width > 0 && ReadChannels(g, k, width, m).error.None?
    requires sem == Normal || sem == TexCoord
    requires forall i :: k <= i < |g.sourceTypes| ==> g.sourceTypes[i].semantic != sem
    ensures BufferFor(ReadChannels(g, k, width, m).model, sem) == BufferFor(m, sem)
    decreases |g.sourceTypes| - k
  {
    if k < |g.sourceTypes| {
      var s := ReadChannel(g, g.sourceTypes[k], width, m);
      assert ReadChannels(g, k, width, m) == ReadChannels(g, k + 1, width, s.model);
      ChannelBuffer(g, g.sourceTypes[k], width, m, sem);
      UnwrittenBufferKept(g, k + 1, width, s.model, sem);
    }
  }

  /**
   * After the channel loop, the normal buffer and the texture-coordinate buffer
   * are the buffers of the sources named by the last NORMAL and the last
   * TEXCOORD input of the polylist.
   */
  lemma {:induction false} LastBufferWins(g: Geometry, k: nat, width: nat, m: LoadedModel, sem: Semantic, i: nat)
    requires k <= |g.sourceTypes| && width > 0 && ReadChannels(g, k, width, m).error.None?
    requires sem == Normal || sem == TexCoord
    requires LastWriter(g, k, i, sem)
    ensures g.sourceTypes[i].key in g.sources
    ensures BufferFor(ReadChannels(g, k, width, m).model, sem) == BufferOf(g.sources[g.sourceTypes[i].key])
    decreases |g.sourceTypes| - k
  {
    var s := ReadChannel(g, g.sourceTypes[k], width, m);
    assert ReadChannels(g, k, width, m) == ReadChannels(g, k + 1, width, s.model);
    ChannelBuffer(g, g.sourceTypes[k], width, m, sem);
    if k < i {
      LastBufferWins(g, k + 1, width, s.model, sem, i);
    } else {
      UnwrittenBufferKept(g, k + 1, width, s.model, sem);
    }
  }

  // ----- no texture coordinates -----

  /**
   * Without texture coordinates the texture buffer gets two zeros per vertex
   * after whatever data it had, stride 2 and the vertex count as its count;
   * the index streams, vertices and normals are left as extracted.
   */
  lemma ZeroFilled(g: Geometry)
    requires ImportDefined(g) && Prepared(g).error.None? && !Reconciles(Prepared(g).model)
    ensures var m, r := Prepared(g).model, ImportSpec(g).model;
      && m.vertices.count.Whole?
      && r.textureCoords.stride == 2
      && r.textureCoords.count == m.vertices.count
      && |r.textureCoords.data| == |m.textureCoords.data| + 2 * m.vertices.count.n
      && r.textureCoords.data[..|m.textureCoords.data|] == m.textureCoords.data
      && (forall i :: |m.textureCoords.data| <= i < |r.textureCoords.data| ==> r.textureCoords.data[i] == 0)
      && r.indices == m.indices && r.vertices == m.vertices && r.normals == m.normals
  {
    var m, r := Prepared(g).model, ImportSpec(g).model;
    PreparedVertices(g);
    assert r.textureCoords.data[..|m.textureCoords.data|] == m.textureCoords.data;
  }

  lemma {:induction false} NoTexChannelKeeps(g: Geometry, k: nat, width: nat, m: LoadedModel)
    requires k <= |g.sourceTypes| && width > 0
    requires forall i :: k <= i < |g.sourceTypes| ==> g.sourceTypes[i].semantic != TexCoord
    ensures ReadChannels(g, k, width, m).model.textureCoords == m.textureCoords
    decreases |g.sourceTypes| - k
  {
    if k < |g.sourceTypes| {
      var s := ReadChannel(g, g.sourceTypes[k], width, m);
      if s.error.None? {
        NoTexChannelKeeps(g, k + 1, width, s.model);
      }
    }
  }

  /**
   * With no TEXCOORD input at all, the texture buffer is exactly `2 * n` zeros
   * with stride 2 and count `n`, `n` the vertex count.
   */
  lemma NoTexCoordChannel(g: Geometry)
    requires forall i :: 0 <= i < |g.sourceTypes| ==> g.sourceTypes[i].semantic != TexCoord
    requires PositionSourcesFrom(g, 0) && ChannelSourcesFrom(g, 0)
    ensures ImportDefined(g)
    ensures var m, r := Prepared(g).model, ImportSpec(g).model;
      && m.vertices.count.Whole?
      && r.textureCoords == Buffer(m.vertices.count, Zeros(2 * m.vertices.count.n), 2)
      && r.indices == m.indices
  {
    var s := ReadPositions(g, 0, EmptyModel());
    PositionsFail(g, 0, EmptyModel());
    ChannelsFail(g, 0, MaxOffsetOf(g.sourceTypes) + 1, s.model);
    NoTexChannelKeeps(g, 0, MaxOffsetOf(g.sourceTypes) + 1, s.model);
    PreparedVertices(g);
  }

  // ----- a reconciled model -----

  /**
   * A reconciled model whose position indices are below the vertex count:
   * its vertex count is the whole number `|data| / stride`, every rewritten
   * index is below it and addresses a copy of the corner's original position,
   * and the original position data is still at the front.
   */
  lemma ReconciledVertices(g: Geometry)
    requires ImportDefined(g) && Prepared(g).error.None? && Reconciles(Prepared(g).model)
    requires WellIndexed(ReconcileInput(Prepared(g).model))
    ensures var m, r := Prepared(g).model, ImportSpec(g).model;
      var vS := m.vertices.stride;
      var c := RecordCount(|r.vertices.data|, vS);
      && r.vertices.count == Whole(c)
      && |r.indices.vertexIndices| == |m.indices.vertexIndices|
      && (forall j :: 0 <= j < |r.indices.vertexIndices| ==>
            r.indices.vertexIndices[j] < c &&
            Record(r.vertices.data, vS, r.indices.vertexIndices[j]) == Record(m.vertices.data, vS, m.indices.vertexIndices[j]))
      && |m.vertices.data| <= |r.vertices.data| && r.vertices.data[..|m.vertices.data|] == m.vertices.data
  {
    var input := ReconcileInput(Prepared(g).model);
    assert ImportSpec(g).model == WithReconciled(Prepared(g).model, Outcome(input));
    OutputBounds(input);
    var vS, len := input.vertex.stride, |Final(input).vertices|;
    DivBounds(len, vS);
    assert len == RecordStart(RecordCount(len, vS), vS);
  }

  /**
   * In a reconciled model the normal and texture index streams are the
   * extracted ones, and the normal and texture counts are their data lengths
   * over their strides.
   */
  lemma ReconciledStreams(g: Geometry)
    requires ImportDefined(g) && Prepared(g).error.None? && Reconciles(Prepared(g).model)
    ensures var m, r := Prepared(g).model, ImportSpec(g).model;
      && r.indices.normalIndices == m.indices.normalIndices
      && r.indices.texCoordIndices == m.indices.texCoordIndices
      && r.normals.count == Quotient(|r.normals.data|, m.normals.stride)
      && r.textureCoords.count == Quotient(|r.textureCoords.data|, m.textureCoords.stride)
  {
  }

  /**
   * A reconciled model whose every original position is used and whose
   * corners all have texture tuples of the texture stride, a positive one:
   * the texture count equals the vertex count, and the tuple stored for each
   * corner's vertex is the corner's own tuple.
   */
  lemma ReconciledTexture(g: Geometry)
    requires ImportDefined(g) && Prepared(g).error.None? && Reconciles(Prepared(g).model)
    requires WellIndexed(ReconcileInput(Prepared(g).model))
    requires Prepared(g).model.textureCoords.stride > 0
    requires OneLength(ReconcileInput(Prepared(g).model), Prepared(g).model.textureCoords.stride)
    requires forall u :: 0 <= u < BaseCount(ReconcileInput(Prepared(g).model)) ==>
      u in Prepared(g).model.indices.vertexIndices
    ensures var input, r := ReconcileInput(Prepared(g).model), ImportSpec(g).model;
      var tS := input.tex.stride;
      && r.textureCoords.count == r.vertices.count
      && forall j :: 0 <= j < |r.indices.vertexIndices| ==>
           Record(r.textureCoords.data, tS, r.indices.vertexIndices[j]) == TexTuple(input, j)
  {
    var input := ReconcileInput(Prepared(g).model);
    var L := input.tex.stride;
    ReconciledVertices(g);
    TexAligned(input, L);
    var c := RecordCount(|Final(input).vertices|, input.vertex.stride);
    ExactCount(c, L);
  }
}
