/**
 * The renderer's bookkeeping around the importer: the names under which the
 * geometries of a COLLADA document are stored, the registry of worlds with
 * its active world, a world's cameras with its active camera, and the number
 * of lights handed to the shader.
 */
module Renderer {
  import opened Common
  import opened Collada
  import opened Importer

  // ----- model naming -----

  /** `modelName ? modelName : "model"`: a missing or empty name falls back to "model". */
  function BaseName(modelName: Option<string>): (base: string)
    ensures base != ""
    ensures modelName.Some? && modelName.value != "" ==> base == modelName.value
    ensures modelName.None? || modelName.value == "" ==> base == "model"
  {
    match modelName
    case Some(name) => if name != "" then name else "model"
    case None => "model"
  }

  /**
   * The name of geometry `i` of `count`: the base alone when the document has
   * one geometry, otherwise the base followed by the decimal number `i + 1`,
   * which reads back from the name's tail.
   */
  function GeometryName(base: string, count: nat, i: nat): (name: string)
    ensures count <= 1 ==> name == base
    ensures count > 1 ==> |name| > |base| && name[..|base|] == base
    ensures count > 1 ==> forall c :: |base| <= c < |name| ==> IsDigit(name[c])
    ensures count > 1 ==> ReadDecimal(name[|base|..]) == i + 1
  {
    if count > 1 then
      var name := base + Decimal(i + 1);
      assert name[|base|..] == Decimal(i + 1);
      DecimalRoundTrip(i + 1);
      name
    else base
  }

  /** Two geometries of the same document never share a name. */
  lemma NamesDistinct(base: string, count: nat, i: nat, j: nat)
    requires i < count && j < count && i != j
    ensures GeometryName(base, count, i) != GeometryName(base, count, j)
  {
  }

  // ----- light clamp -----

  /** `len < max ? len : max`: the number of lights of one kind the shader receives. */
  function LightCount(len: nat, max: int): (c: int)
    ensures c <= len && c <= max
    ensures c == len || c == max
  {
    if len < max then len else max
  }

  // ----- worlds and cameras -----

  /** A camera object; its projection and transform are not part of this model. */
  class Camera {
    constructor()
    {
    }
  }

  /** A world object: its cameras in the order added and the active one. */
  class World {
    var cameras: seq<Camera>
    var activeCamera: Camera?

    /** A new world has no camera and no active camera. */
    constructor()
      ensures cameras == [] && activeCamera == null
    {
      cameras := [];
      activeCamera := null;
    }

    /** `setActiveCamera`: any value, a camera not added or none at all, becomes the active camera. */
    method SetActiveCamera(camera: Camera?)
      modifies this
      ensures activeCamera == camera && cameras == old(cameras)
    {
      activeCamera := camera;
    }

    /** `addCamera`: appends the camera and makes it active when it is the first one. */
    method AddCamera(camera: Camera)
      modifies this
      ensures cameras == old(cameras) + [camera]
      ensures activeCamera == if |cameras| == 1 then camera else old(activeCamera)
    {
      cameras := cameras + [camera];
      if |cameras| == 1 {
        activeCamera := camera;
      }
    }
  }

  /** The key of a new world: the given name, or `"world"` followed by the number of worlds so far. */
  function WorldKey(name: Option<string>, count: nat): (key: string)
    ensures name.Some? ==> key == name.value
    ensures name.None? ==> |key| > 5 && key[..5] == "world"
    ensures name.None? ==> (forall c :: 5 <= c < |key| ==> IsDigit(key[c])) && ReadDecimal(key[5..]) == count
  {
    match name
    case Some(n) => n
    case None =>
      var key := "world" + Decimal(count);
      assert key[5..] == Decimal(count);
      DecimalRoundTrip(count);
      key
  }

  /** Every key is the generated name `"world" + i` of some `i` below `n`. */
  ghost predicate GeneratedBelow(keys: set<string>, n: nat)
  {
    forall k :: k in keys ==> exists i :: 0 <= i < n && k == WorldKey(None, i)
  }

  /**
   * When every world so far was created without a name, the generated name
   * of the next one is new, so it never replaces an existing world.
   */
  lemma UnnamedKeyIsNew(keys: set<string>)
    requires GeneratedBelow(keys, |keys|)
    ensures WorldKey(None, |keys|) !in keys
    ensures GeneratedBelow(keys + {WorldKey(None, |keys|)}, |keys| + 1)
  {
  }

  /** The renderer's world registry and the models it has loaded. */
  class Renderer {
    var worlds: map<string, World>
    var activeWorld: World?
    var loadedModels: map<string, LoadedModel>

    /** A new renderer has no world, no active world and no loaded model. */
    constructor()
      ensures worlds == map[] && activeWorld == null && loadedModels == map[]
    {
      worlds := map[];
      activeWorld := null;
      loadedModels := map[];
    }

    /**
     * `createWorld`: stores a new, empty world under its key. The first world
     * created becomes active; a later one leaves the active world as it was,
     * even when it replaces the world of the same name, which then stays
     * active while no longer being in the registry.
     */
    method CreateWorld(name: Option<string>)
      modifies this
      ensures var key := WorldKey(name, |old(worlds)|);
        && key in worlds && fresh(worlds[key])
        && worlds[key].cameras == [] && worlds[key].activeCamera == null
        && worlds == old(worlds)[key := worlds[key]]
        && activeWorld == (if |old(worlds)| == 0 then worlds[key] else old(activeWorld))
        && loadedModels == old(loadedModels)
    {
      var setActive := |worlds| == 0;
      var key := WorldKey(name, |worlds|);
      var world := new World();
      worlds := worlds[key := world];
      if setActive {
        activeWorld := worlds[key];
      }
    }

    /** `setActiveWorld`: the named world becomes active when it exists; otherwise nothing changes. */
    method SetActiveWorld(worldName: string)
      modifies this
      ensures activeWorld == if worldName in worlds then worlds[worldName] else old(activeWorld)
      ensures worlds == old(worlds) && loadedModels == old(loadedModels)
    {
      if worldName in worlds {
        activeWorld := worlds[worldName];
      }
    }

    /**
     * `loadModelFromCollada`: imports the geometries in document order and
     * stores each one under its name, then reports the first import error,
     * with the failing geometry's partial model stored and the rest not read.
     * `results` are the imports the loop performed.
     */
    method LoadModelFromCollada(geometries: seq<Geometry>, modelName: Option<string>) returns (error: Option<ImportError>, ghost results: seq<Staged>)
      requires Loadable(geometries)
      modifies this
      ensures ReachedImports(geometries, results)
      ensures (loadedModels, error) == StoreAll(old(loadedModels), BaseName(modelName), |geometries|, results, 0)
      ensures worlds == old(worlds) && activeWorld == old(activeWorld)
    {
      var base := BaseName(modelName);
      ghost var initial := loadedModels;
      results := [];
      error := None;
      var i := 0;
      while i < |geometries|
        invariant 0 <= i <= |geometries| && |results| == i
        invariant Performed(geometries, results)
        invariant (loadedModels, None) == StoreAll(initial, base, |geometries|, results, 0)
        invariant worlds == old(worlds) && activeWorld == old(activeWorld)
        decreases |geometries| - i
      {
        NextReached(geometries, results);
        var name := GeometryName(base, |geometries|, i);
        var staged := ImportGeometry(geometries[i]);
        StoreAllSnoc(initial, base, |geometries|, results, staged, 0);
        loadedModels := loadedModels[name := staged.model];
        if staged.error.Some? {
          PerformedFails(geometries, results, staged);
          results := results + [staged];
          error := staged.error;
          return;
        }
        PerformedMore(geometries, results, staged);
        results := results + [staged];
        i := i + 1;
      }
      PerformedAll(geometries, results);
    }
  }

  /** `results` are the imports of the first geometries of `gs`, all of them without error. */
  ghost predicate Performed(gs: seq<Geometry>, results: seq<Staged>)
  {
    && |results| <= |gs|
    && (forall k :: 0 <= k < |results| ==> ImportDefined(gs[k]) && results[k] == ImportSpec(gs[k]))
    && Clean(results, 0, |results|)
  }

  /** The geometry after imports without error is reached, so it can be imported. */
  lemma NextReached(gs: seq<Geometry>, results: seq<Staged>)
    requires Loadable(gs) && Performed(gs, results) && |results| < |gs|
    ensures ImportDefined(gs[|results|])
  {
    var i := |results|;
    assert forall k :: 0 <= k < i ==> ImportDefined(gs[k]) && ImportSpec(gs[k]).error.None? by {
      forall k | 0 <= k < i ensures ImportDefined(gs[k]) && ImportSpec(gs[k]).error.None? {
        assert results[k] == ImportSpec(gs[k]);
      }
    }
  }

  /** One more import without error keeps the run going. */
  lemma PerformedMore(gs: seq<Geometry>, results: seq<Staged>, staged: Staged)
    requires Performed(gs, results) && |results| < |gs|
    requires ImportDefined(gs[|results|]) && staged == ImportSpec(gs[|results|])
    requires staged.error.None?
    ensures Performed(gs, results + [staged])
  {
    var rs := results + [staged];
    assert forall k :: 0 <= k < |results| ==> rs[k] == results[k];
  }

  /** One more import with an error ends the loop: the run is then the document's list of imports. */
  lemma PerformedFails(gs: seq<Geometry>, results: seq<Staged>, staged: Staged)
    requires Performed(gs, results) && |results| < |gs|
    requires ImportDefined(gs[|results|]) && staged == ImportSpec(gs[|results|])
    requires staged.error.Some?
    ensures ReachedImports(gs, results + [staged])
  {
    var rs := results + [staged];
    assert forall k :: 0 <= k < |results| ==> rs[k] == results[k];
  }

  /** A run without error over the whole document is its list of imports. */
  lemma PerformedAll(gs: seq<Geometry>, results: seq<Staged>)
    requires Performed(gs, results) && |results| == |gs|
    ensures ReachedImports(gs, results)
  {
  }

  /**
   * Every geometry the loading loop reaches can be imported: the first one,
   * and each one all of whose predecessors import without error.
   */
  predicate Loadable(gs: seq<Geometry>)
  {
    forall i :: 0 <= i < |gs| ==>
      (forall k :: 0 <= k < i ==> ImportDefined(gs[k]) && ImportSpec(gs[k]).error.None?) ==> ImportDefined(gs[i])
  }

  /**
   * `results` are the imports of the geometries the loading loop reaches, in
   * document order: all of them when none fails, otherwise those up to and
   * including the first failing one.
   */
  ghost predicate ReachedImports(gs: seq<Geometry>, results: seq<Staged>)
  {
    && |results| <= |gs| && (|gs| > 0 ==> |results| > 0)
    && (forall k :: 0 <= k < |results| ==> ImportDefined(gs[k]) && results[k] == ImportSpec(gs[k]))
    && (forall k :: 0 <= k < |results| - 1 ==> results[k].error.None?)
    && (|results| < |gs| ==> results[|results| - 1].error.Some?)
  }

  /** The document alone decides which imports the loop performs. */
  lemma ImportsUnique(gs: seq<Geometry>, r1: seq<Staged>, r2: seq<Staged>)
    requires ReachedImports(gs, r1) && ReachedImports(gs, r2)
    ensures r1 == r2
  {
  }

  /** Storing one more import after a run of imports without error. */
  lemma {:induction false} StoreAllSnoc(models: map<string, LoadedModel>, base: string, count: nat, results: seq<Staged>, x: Staged, i: nat)
    requires i <= |results| && Clean(results, i, |results|)
    ensures var stored := StoreAll(models, base, count, results, i).0;
      StoreAll(models, base, count, results + [x], i) == (stored[GeometryName(base, count, |results|) := x.model], x.error)
    decreases |results| - i
  {
    var rs := results + [x];
    assert rs[i] == if i < |results| then results[i] else x;
    if i < |results| {
      StoreAllSnoc(models[GeometryName(base, count, i) := results[i].model], base, count, results, x, i + 1);
    }
  }

  /**
   * The stored models and the error after storing the import results from `i`
   * on, each under the name of its geometry among `count`, up to and including
   * the first failure.
   */
  function StoreAll(models: map<string, LoadedModel>, base: string, count: nat, results: seq<Staged>, i: nat): (map<string, LoadedModel>, Option<ImportError>)
    requires i <= |results|
    decreases |results| - i
  {
    if i == |results| then (models, None)
    else
      var stored := models[GeometryName(base, count, i) := results[i].model];
      if results[i].error.Some? then (stored, results[i].error)
      else StoreAll(stored, base, count, results, i + 1)
  }

  /** The imports from `i` up to, not including, `n` have no error. */
  ghost predicate Clean(results: seq<Staged>, i: nat, n: nat)
    requires n <= |results|
  {
    forall k :: i <= k < n ==> results[k].error.None?
  }

  /**
   * After loading, every geometry up to and including the first failing one is
   * stored under its own name with the model its import produced.
   */
  lemma {:induction false} StoresUnderName(models: map<string, LoadedModel>, base: string, count: nat, results: seq<Staged>, i: nat, k: nat)
    requires i <= k < |results| <= count && Clean(results, i, k)
    ensures GeometryName(base, count, k) in StoreAll(models, base, count, results, i).0
    ensures StoreAll(models, base, count, results, i).0[GeometryName(base, count, k)] == results[k].model
    decreases |results| - i
  {
    var stored := models[GeometryName(base, count, i) := results[i].model];
    if k > i {
      StoresUnderName(stored, base, count, results, i + 1, k);
    } else if results[i].error.None? {
      LaterNamesDiffer(base, count, |results|, i);
      KeepsOtherNames(stored, base, count, results, i + 1, GeometryName(base, count, i));
    }
  }

  lemma LaterNamesDiffer(base: string, count: nat, n: nat, i: nat)
    requires i < n <= count
    ensures forall k :: i + 1 <= k < n ==> GeometryName(base, count, i) != GeometryName(base, count, k)
  {
    forall k | i + 1 <= k < n
      ensures GeometryName(base, count, i) != GeometryName(base, count, k)
    {
      NamesDistinct(base, count, i, k);
    }
  }

  /** A name no geometry from `i` on is stored under keeps the model it had. */
  lemma {:induction false} KeepsOtherNames(models: map<string, LoadedModel>, base: string, count: nat, results: seq<Staged>, i: nat, name: string)
    requires i <= |results| && name in models
    requires forall k :: i <= k < |results| ==> name != GeometryName(base, count, k)
    ensures name in StoreAll(models, base, count, results, i).0 && StoreAll(models, base, count, results, i).0[name] == models[name]
    decreases |results| - i
  {
    if i < |results| && results[i].error.None? {
      KeepsOtherNames(models[GeometryName(base, count, i) := results[i].model], base, count, results, i + 1, name);
    }
  }

  /** No error is reported exactly when every stored import is without error. */
  lemma {:induction false} SucceedsIff(models: map<string, LoadedModel>, base: string, count: nat, results: seq<Staged>, i: nat)
    requires i <= |results|
    ensures StoreAll(models, base, count, results, i).1.None? <==> Clean(results, i, |results|)
    decreases |results| - i
  {
    if i < |results| && results[i].error.None? {
      SucceedsIff(models[GeometryName(base, count, i) := results[i].model], base, count, results, i + 1);
    }
  }

  /** The error reported is that of the first failing geometry. */
  lemma {:induction false} FirstErrorReported(models: map<string, LoadedModel>, base: string, count: nat, results: seq<Staged>, i: nat, k: nat)
    requires i <= k < |results| && Clean(results, i, k) && results[k].error.Some?
    ensures StoreAll(models, base, count, results, i).1 == results[k].error
    decreases |results| - i
  {
    if i < k {
      FirstErrorReported(models[GeometryName(base, count, i) := results[i].model], base, count, results, i + 1, k);
    }
  }

  /**
   * Loading a whole document reports no error exactly when every geometry
   * imports without error.
   */
  lemma LoadSucceedsIff(models: map<string, LoadedModel>, base: string, gs: seq<Geometry>, results: seq<Staged>)
    requires ReachedImports(gs, results)
    ensures StoreAll(models, base, |gs|, results, 0).1.None? <==>
      (forall k :: 0 <= k < |gs| ==> ImportDefined(gs[k]) && ImportSpec(gs[k]).error.None?)
  {
    SucceedsIff(models, base, |gs|, results, 0);
  }
}
