/**
 * One `<geometry>` of `loadModelFromCollada`: the POSITION inputs of
 * `<vertices>`, the channels of the `<polylist>`, and then either the
 * reconciliation pass (when the model has texture coordinates) or the
 * zero-filled texture-coordinate buffer.
 *
 * `ImportSpec` states the result as a function of the geometry;
 * `ImportGeometry` runs the importer's loops and is proved equal to it.
 */
module Importer {
  import opened Common
  import opened Collada
  import opened Extraction
  import opened Reconcile

  /** A model as far as the import got, and the error that stopped it, if any. */
  datatype Staged = Staged(model: LoadedModel, error: Option<ImportError>)

  /**
   * The loop over the `<vertices>` inputs from input `j` on: a POSITION input
   * copies its source's data, count and stride into `vertices`; any other
   * input is skipped; a POSITION input naming no source stops the import.
   */
  function ReadPositions(g: Geometry, j: nat, m: LoadedModel): (r: Staged)
    requires j <= |g.verticesInputs|
    ensures r.model == m.(vertices := r.model.vertices)
    ensures m.vertices.count.Whole? ==> r.model.vertices.count.Whole?
    decreases |g.verticesInputs| - j
  {
    if j == |g.verticesInputs| then Staged(m, None)
    else
      var input := g.verticesInputs[j];
      if input.semantic != Position then ReadPositions(g, j + 1, m)
      else if input.source !in g.sources then Staged(m, Some(MissingSource(input.source)))
      else ReadPositions(g, j + 1, m.(vertices := BufferOf(g.sources[input.source])))
  }

  /** One `<polylist>` input: its index stream, and for NORMAL and TEXCOORD its source's buffer. */
  function ReadChannel(g: Geometry, st: SourceType, width: nat, m: LoadedModel): (r: Staged)
    requires width > 0
    ensures r.model.vertices == m.vertices
    ensures r.error.Some? <==> (st.semantic == Normal || st.semantic == TexCoord) && st.key !in g.sources
  {
    match st.semantic
    case Vertex =>
      if st.key == g.verticesId then
        Staged(m.(indices := m.indices.(vertexIndices := Strided(g.p, st.offset, width))), None)
      else Staged(m, None)
    case Normal =>
      if st.key !in g.sources then Staged(m, Some(MissingSource(st.key)))
      else
        Staged(m.(normals := BufferOf(g.sources[st.key]),
                  indices := m.indices.(normalIndices := Strided(g.p, st.offset, width))), None)
    case TexCoord =>
      if st.key !in g.sources then Staged(m, Some(MissingSource(st.key)))
      else
        Staged(m.(textureCoords := BufferOf(g.sources[st.key]),
                  indices := m.indices.(texCoordIndices := Strided(g.p, st.offset, width))), None)
    case _ => Staged(m, None)
  }

  /** The loop over `sourceTypes` from entry `k` on, stopping at the first error. */
  function ReadChannels(g: Geometry, k: nat, width: nat, m: LoadedModel): (r: Staged)
    requires k <= |g.sourceTypes| && width > 0
    ensures r.model.vertices == m.vertices
    decreases |g.sourceTypes| - k
  {
    if k == |g.sourceTypes| then Staged(m, None)
    else
      var s := ReadChannel(g, g.sourceTypes[k], width, m);
      if s.error.Some? then s else ReadChannels(g, k + 1, width, s.model)
  }

  /** The model once the vertices and the `<polylist>` channels are read. */
  function Prepared(g: Geometry): Staged
  {
    var s := ReadPositions(g, 0, EmptyModel());
    if s.error.Some? then s else ReadChannels(g, 0, MaxOffsetOf(g.sourceTypes) + 1, s.model)
  }

  /** What the reconciliation pass works on: copies of the three index streams and of the three data arrays. */
  function ReconcileInput(m: LoadedModel): Input
  {
    Input(Streams(m.indices.vertexIndices, m.indices.normalIndices, m.indices.texCoordIndices),
          Attrib(m.vertices.data, m.vertices.stride),
          Attrib(m.normals.data, m.normals.stride),
          Attrib(m.textureCoords.data, m.textureCoords.stride))
  }

  /** The model after the pass: the rewritten stream, the grown arrays, the rebuilt texture buffer, each count a length over a stride. */
  function WithReconciled(m: LoadedModel, out: Reconciled): LoadedModel
  {
    m.(indices := m.indices.(vertexIndices := out.indices),
       vertices := Buffer(Quotient(|out.vertices|, m.vertices.stride), out.vertices, m.vertices.stride),
       normals := Buffer(Quotient(|out.normals|, m.normals.stride), out.normals, m.normals.stride),
       textureCoords := Buffer(Quotient(|out.texCoords|, m.textureCoords.stride), out.texCoords, m.textureCoords.stride))
  }

  function Zeros(n: nat): (z: seq<Coord>)
    ensures |z| == n && forall i :: 0 <= i < n ==> z[i] == 0
  {
    if n == 0 then [] else Zeros(n - 1) + [0]
  }

  /** The model without texture coordinates: two zeros per vertex pushed onto the texture data, stride 2. */
  function ZeroFill(m: LoadedModel): LoadedModel
    requires m.vertices.count.Whole?
  {
    var n := m.vertices.count.n;
    m.(textureCoords := Buffer(m.vertices.count, m.textureCoords.data + Zeros(2 * n), 2))
  }

  /** `if (textureCoords.count)`: a texture count other than zero selects the reconciliation pass. */
  predicate Reconciles(m: LoadedModel)
  {
    m.textureCoords.count != Whole(0)
  }

  /**
   * The geometries the model covers: the import stops with an error, or the
   * model has no texture coordinates, or the reconciliation pass is defined on it.
   */
  predicate ImportDefined(g: Geometry)
  {
    var s := Prepared(g);
    s.error.Some? || !Reconciles(s.model) || Runnable(ReconcileInput(s.model))
  }

  lemma PreparedVertices(g: Geometry)
    ensures Prepared(g).model.vertices.count.Whole?
  {
  }

  /** The whole import of one geometry. */
  function ImportSpec(g: Geometry): Staged
    requires ImportDefined(g)
  {
    var s := Prepared(g);
    PreparedVertices(g);
    if s.error.Some? then s
    else if Reconciles(s.model) then Staged(WithReconciled(s.model, Outcome(ReconcileInput(s.model))), None)
    else Staged(ZeroFill(s.model), None)
  }

  // ----- the importer's loops -----

  /** `for (j = 0; j < vertexCount; j++) { data.push(0.0); data.push(0.0); }` */
  method PushZeros(data: seq<Coord>, vertexCount: nat) returns (filled: seq<Coord>)
    ensures filled == data + Zeros(2 * vertexCount)
  {
    filled := data;
    for j := 0 to vertexCount
      invariant filled == data + Zeros(2 * j)
    {
      filled := filled + [0];
      filled := filled + [0];
    }
  }

  /** The `<vertices>` loop. */
  method ReadVertices(g: Geometry) returns (s: Staged)
    ensures s == ReadPositions(g, 0, EmptyModel())
  {
    var model := EmptyModel();
    var j := 0;
    while j < |g.verticesInputs|
      invariant j <= |g.verticesInputs|
      invariant ReadPositions(g, j, model) == ReadPositions(g, 0, EmptyModel())
      decreases |g.verticesInputs| - j
    {
      var input := g.verticesInputs[j];
      if input.semantic == Position {
        if input.source !in g.sources {
          return Staged(model, Some(MissingSource(input.source)));
        }
        model := model.(vertices := BufferOf(g.sources[input.source]));
      }
      j := j + 1;
    }
    s := Staged(model, None);
  }

  /** The body of the `for (key in sourceTypes)` loop for one entry. */
  method VisitChannel(g: Geometry, st: SourceType, maxOffset: nat, m: LoadedModel) returns (s: Staged)
    ensures s == ReadChannel(g, st, maxOffset + 1, m)
  {
    var model := m;
    match st.semantic {
      case Vertex =>
        if st.key == g.verticesId {
          var finalArray := ExtractStream(g.p, st.offset, maxOffset);
          model := model.(indices := model.indices.(vertexIndices := finalArray));
        }
      case Normal =>
        if st.key !in g.sources {
          return Staged(model, Some(MissingSource(st.key)));
        }
        model := model.(normals := BufferOf(g.sources[st.key]));
        var finalArray := ExtractStream(g.p, st.offset, maxOffset);
        model := model.(indices := model.indices.(normalIndices := finalArray));
      case TexCoord =>
        if st.key !in g.sources {
          return Staged(model, Some(MissingSource(st.key)));
        }
        model := model.(textureCoords := BufferOf(g.sources[st.key]));
        var finalArray := ExtractStream(g.p, st.offset, maxOffset);
        model := model.(indices := model.indices.(texCoordIndices := finalArray));
      case _ =>
    }
    s := Staged(model, None);
  }

  /** The `sourceTypes` loops: `maxOffset`, then one index stream per channel. */
  method ReadPolylist(g: Geometry, m: LoadedModel) returns (s: Staged)
    ensures s == ReadChannels(g, 0, MaxOffsetOf(g.sourceTypes) + 1, m)
  {
    var maxOffset := MaxOffset(g.sourceTypes);
    var model := m;
    for k := 0 to |g.sourceTypes|
      invariant ReadChannels(g, k, maxOffset + 1, model) == ReadChannels(g, 0, maxOffset + 1, m)
    {
      var step := VisitChannel(g, g.sourceTypes[k], maxOffset, model);
      if step.error.Some? {
        return step;
      }
      model := step.model;
    }
    s := Staged(model, None);
  }

  /** The body of the loop over the geometries, for one geometry. */
  method ImportGeometry(g: Geometry) returns (s: Staged)
    requires ImportDefined(g)
    ensures s == ImportSpec(g)
  {
    s := ReadVertices(g);
    if s.error.Some? {
      return;
    }
    s := ReadPolylist(g, s.model);
    if s.error.Some? {
      return;
    }
    var model := s.model;
    PreparedVertices(g);
    if model.textureCoords.count != Whole(0) {
      var out := Reconcile.Reconcile(ReconcileInput(model));
      model := WithReconciled(model, out);
    } else {
      var vertexCount := model.vertices.count.n;
      var data := PushZeros(model.textureCoords.data, vertexCount);
      model := model.(textureCoords := Buffer(model.vertices.count, data, 2));
    }
    s := Staged(model, None);
  }
}
