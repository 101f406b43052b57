/**
 * The records the COLLADA importer works on, after the XML document has been
 * read: parsed sources, the inputs of `<vertices>` and `<polylist>`, the flat
 * `<p>` index list, and the loaded model it builds per `<geometry>`.
 */
module Collada {
  import opened Common

  /** The `semantic` attribute of an `<input>`; any other value is Unsupported. */
  datatype Semantic = Position | Vertex | Normal | TexCoord | Unsupported

  /** An `<input>` of `<vertices>`: its semantic and the id of the source it names (without the leading '#'). */
  datatype VerticesInput = VerticesInput(semantic: Semantic, source: string)

  /** One entry of the `sourceTypes` object built from the `<polylist>` inputs, keyed by source id. */
  datatype SourceType = SourceType(key: string, semantic: Semantic, offset: nat)

  /** The parsed `<source>`: its float array, the array's declared count, and the accessor's count and stride. */
  datatype SourceRecord = SourceRecord(dataArray: seq<Coord>, arrayLength: nat, vertexCount: nat, stride: nat)

  /** One `<geometry>`, as the importer sees it once the document has been read. */
  datatype Geometry = Geometry(
    sources: map<string, SourceRecord>,
    verticesId: string,
    verticesInputs: seq<VerticesInput>,
    sourceTypes: seq<SourceType>,
    p: seq<nat>)

  /** An attribute buffer of a loaded model: `{count, data, stride}`. */
  datatype Buffer = Buffer(count: Count, data: seq<Coord>, stride: nat)

  datatype Indices = Indices(vertexIndices: seq<nat>, normalIndices: seq<nat>, texCoordIndices: seq<nat>)

  /** An entry of `loadedModels`. */
  datatype LoadedModel = LoadedModel(vertices: Buffer, normals: Buffer, textureCoords: Buffer, indices: Indices)

  /** The TypeError raised when `sources[id]` is undefined and a field of it is read. */
  datatype ImportError = MissingSource(id: string)

  /** The model record as first stored, before the geometry is read. */
  function EmptyModel(): LoadedModel
  {
    LoadedModel(Buffer(Whole(0), [], 0), Buffer(Whole(0), [], 0), Buffer(Whole(0), [], 0), Indices([], [], []))
  }

  /** The buffer that copies a source's data array, accessor count and stride. */
  function BufferOf(r: SourceRecord): Buffer
  {
    Buffer(Whole(r.vertexCount), r.dataArray, r.stride)
  }
}
