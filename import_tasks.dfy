/**
 * The import tasks of Piglet's `EditorGltfImporter` and
 * `RuntimeGltfImporter`: ten subtasks run one after another on one
 * importer, the last yielding the import's result (a prefab in the
 * editor, the scene's root object at runtime). When a subtask throws, or
 * the user aborts, the importer's `Clear` removes what was imported.
 * The task scheduler itself is not modelled: `Step` runs the next
 * subtask to completion.
 */
module ImportTasks {
  import opened Wrappers
  import opened Strings
  import opened Engine
  import opened GltfSchema
  import opened ImportEnv
  import opened ImportCaches
  import opened EditorImportCache
  import opened ImporterSpec
  import opened SceneSpec
  import opened Importer
  import GltfUtils
  import UnityPathUtil

  /** The subtasks `GetImportTask` adds, one per importer coroutine. */
  datatype Phase =
    | ReadUriPhase | ParseFilePhase | LoadBuffersPhase | LoadTexturesPhase | LoadMaterialsPhase
    | LoadMeshesPhase | LoadScenePhase | LoadMorphTargetsPhase | LoadSkinsPhase
    | CreatePrefabPhase | GetSceneObjectPhase

  /** The nine loading subtasks both importers add first, in this order. */
  const LoadingPhases: seq<Phase> := [ReadUriPhase, ParseFilePhase, LoadBuffersPhase, LoadTexturesPhase,
                                      LoadMaterialsPhase, LoadMeshesPhase, LoadScenePhase, LoadMorphTargetsPhase,
                                      LoadSkinsPhase]

  /** `EditorGltfImporter.GetImportTask`: the loading subtasks, then `CreatePrefabEnum`. */
  const EditorPhases: seq<Phase> := LoadingPhases + [CreatePrefabPhase]

  /** `RuntimeGltfImporter.GetImportTask`: the loading subtasks, then `GetSceneObjectEnum`. */
  const RuntimePhases: seq<Phase> := LoadingPhases + [GetSceneObjectPhase]

  /** Where a subtask sits in either list. */
  function Position(p: Phase): (r: nat)
    ensures r < 10
    ensures r < 9 ==> LoadingPhases[r] == p
    ensures r == 9 <==> p == CreatePrefabPhase || p == GetSceneObjectPhase
  {
    match p
    case ReadUriPhase => 0
    case ParseFilePhase => 1
    case LoadBuffersPhase => 2
    case LoadTexturesPhase => 3
    case LoadMaterialsPhase => 4
    case LoadMeshesPhase => 5
    case LoadScenePhase => 6
    case LoadMorphTargetsPhase => 7
    case LoadSkinsPhase => 8
    case CreatePrefabPhase => 9
    case GetSceneObjectPhase => 9
  }

  /** Each task lists ten distinct subtasks, each at its own position, and only the last yields the result. */
  lemma PhaseLists()
    ensures |EditorPhases| == 10 && |RuntimePhases| == 10
    ensures forall k :: 0 <= k < 10 ==> Position(EditorPhases[k]) == k && Position(RuntimePhases[k]) == k
    ensures forall k :: 0 <= k < 9 ==> EditorPhases[k] == RuntimePhases[k]
    ensures EditorPhases[9] == CreatePrefabPhase && RuntimePhases[9] == GetSceneObjectPhase
  {
  }

  /** The subtask at position `k` of either list. */
  lemma PhasePosition(k: nat)
    requires k < 10
    ensures Position(EditorPhases[k]) == k && Position(RuntimePhases[k]) == k
    ensures k == 9 ==> EditorPhases[k] == CreatePrefabPhase && RuntimePhases[k] == GetSceneObjectPhase
  {
    PhaseLists();
  }

  /** The file name `CreatePrefabEnum` saves the scene under. */
  function PrefabBasename(sceneName: string): (r: string)
    ensures EndsWith(r, ".prefab") && |r| >= 7
    ensures sceneName == "" ==> r == "scene.prefab"
    ensures sceneName != "" ==> r[..|r| - 7] == GltfUtils.CleanName(sceneName)
  {
    if sceneName == "" then "scene.prefab" else GltfUtils.CleanName(sceneName) + ".prefab"
  }

  /**
   * The prefab lands directly in the import directory: its basename holds
   * no '/', so combining it with the directory only adds the separator.
   */
  lemma PrefabInImportDir(dir: string, sceneName: string)
    ensures '/' !in PrefabBasename(sceneName)
    ensures PathCombine(dir, PrefabBasename(sceneName)) ==
      (if |dir| == 0 then "" else if dir[|dir| - 1] == '/' then dir else dir + "/") + PrefabBasename(sceneName)
  {
    var b := PrefabBasename(sceneName);
    if sceneName != "" {
      var c := GltfUtils.CleanName(sceneName);
      GltfUtils.CleanNameAlphabet(sceneName);
      assert b == c + ".prefab";
      forall i | 0 <= i < |b|
        ensures b[i] != '/'
      {
        if i < |c| {
          assert b[i] == c[i] && c[i] in c;
        } else {
          assert b[i] == ".prefab"[i - |c|];
        }
      }
    } else {
      assert b == "scene.prefab";
    }
    assert |b| > 0 && b[0] != '/';
  }

  /**
   * `EditorGltfImporter`: a `GltfImporter` over an `EditorGltfImportCache`
   * that binds textures without flipping them, saves the scene as a
   * prefab, and on `Clear` also removes the import directory.
   */
  class EditorGltfImporter {
    const importer: GltfImporter
    const editorCache: EditorGltfImportCache
    /** `Application.dataPath`. */
    const dataPath: string
    /** `_importPath`: where the prefab and its assets go. */
    const importPath: string
    /** Directories passed to `UnityPathUtil.RemoveProjectDir`, in call order. */
    var removedDirectories: seq<string>
    /** `PrefabUtility.SaveAsPrefabAsset` calls: the path and the saved root object. */
    var savedPrefabs: seq<(string, ObjectId)>

    /** `EditorGltfImporter(gltfPath, importPath, progressCallback)`. */
    constructor (env: Env, world: World, dataPath: string, gltfUri: Uri, importPath: string)
      requires world.Valid() && |dataPath| > 0
      ensures importer.Valid() && fresh(importer) && fresh(importer.cache) && importer.cache == editorCache.cache
      ensures importer.env == env && importer.cache.world == world && importer.cache.immediateDestroy
      ensures importer.uri == Some(gltfUri) && importer.data.None? && importer.root.None? && importer.reports == []
      ensures !importer.flipByScale
      ensures editorCache.importBaseDir == UnityPathUtil.GetProjectPath(dataPath, importPath)
      ensures this.dataPath == dataPath && this.importPath == importPath
      ensures removedDirectories == [] && savedPrefabs == []
    {
      var c := new EditorGltfImportCache(world, dataPath, UnityPathUtil.GetProjectPath(dataPath, importPath));
      editorCache := c;
      importer := new GltfImporter(env, Some(gltfUri), None, c.cache, false);
      this.dataPath := dataPath;
      this.importPath := importPath;
      removedDirectories := [];
      savedPrefabs := [];
      new;
      assert importer.cache.nodes == map[] && importer.cache.scene.None?;
      assert importer.cache.Valid();
    }

    /** `Clear` override: the base clear of the imported objects, then the import directory removed. */
    method Clear()
      requires importer.Valid()
      modifies this`removedDirectories, importer.cache.world
      ensures importer.Valid()
      ensures importer.cache.DestroyedInOrder(importer.cache.Created())
      ensures removedDirectories == old(removedDirectories) + [importPath]
    {
      importer.Clear();
      removedDirectories := removedDirectories + [importPath];
    }

    /**
     * `CreatePrefabEnum`: saves the scene object as a prefab named after
     * the scene, then clears the imported objects (but not the asset
     * files) and yields the prefab.
     */
    method CreatePrefabEnum() returns (outcome: Outcome<ImportError>, prefab: Option<string>)
      requires importer.Valid() && |dataPath| > 0
      modifies this`savedPrefabs, importer.cache.world
      ensures importer.Valid() && removedDirectories == old(removedDirectories)
      ensures var scene := importer.cache.scene;
        if scene.None? then outcome == Fail(ImportError.NullReference) && prefab.None? && savedPrefabs == old(savedPrefabs) &&
                            unchanged(importer.cache.world)
        else if scene.value !in old(importer.cache.world.objects) then
          outcome == Fail(ImportError.MissingReference) && prefab.None? && savedPrefabs == old(savedPrefabs) &&
          unchanged(importer.cache.world)
        else
          var path := PathCombine(UnityPathUtil.GetProjectPath(dataPath, importPath),
                                  PrefabBasename(old(importer.cache.world.objects)[scene.value].name));
          outcome.Pass? && prefab == Some(path) && savedPrefabs == old(savedPrefabs) + [(path, scene.value)] &&
          importer.cache.DestroyedInOrder(importer.cache.Created())
    {
      var cache := importer.cache;
      if cache.scene.None? {
        return Fail(ImportError.NullReference), None;
      }
      var scene := cache.scene.value;
      if scene !in cache.world.objects {
        return Fail(ImportError.MissingReference), None;
      }
      var basename := PrefabBasename(cache.world.objects[scene].name);
      var dir := UnityPathUtil.GetProjectPath(dataPath, importPath);
      var path := PathCombine(dir, basename);
      savedPrefabs := savedPrefabs + [(path, scene)];
      importer.Clear();
      outcome, prefab := Pass, Some(path);
    }
  }

  /** `new RuntimeGltfImporter(uri, data, progressCallback)`: a `GltfImporter` over a fresh runtime cache. */
  method NewRuntimeImporter(env: Env, world: World, uri: Option<Uri>, data: Option<Bytes>) returns (importer: GltfImporter)
    requires world.Valid()
    ensures importer.Valid() && fresh(importer) && fresh(importer.cache)
    ensures importer.env == env && importer.cache.world == world && !importer.cache.immediateDestroy
    ensures importer.uri == uri && importer.data == data && importer.root.None? && importer.reports == []
    ensures importer.flipByScale
  {
    var cache := new GltfImportCache(world, false);
    importer := new GltfImporter(env, uri, data, cache, true);
  }

  /** How a task ends: with its result, after a subtask threw, or aborted by the user. */
  datatype TaskState =
    | Running
    | Completed(result: TaskResult)
    | Failed(error: ImportError)
    | Aborted

  /** What the final subtask yields: the saved prefab in the editor, the scene object at runtime. */
  datatype TaskResult = Prefab(path: string) | SceneObject(scene: Option<ObjectId>)

  /**
   * `GltfImportTask` as the importers use it: the subtask list, the
   * position of the next subtask, and the `OnAborted` / `OnException`
   * hooks, which both call the importer's `Clear`. The progress
   * callback forwards every report unchanged, so the task's progress is
   * the importer's `reports`.
   */
  class ImportTask {
    const importer: GltfImporter
    /** The editor importer when this is an editor import. */
    const editor: Option<EditorGltfImporter>
    const phases: seq<Phase>
    /** The order in which the texture tasks of a document with `n` textures complete. */
    const schedule: nat -> seq<nat>
    var next: nat
    var state: TaskState

    function EditorParts(): set<object>
      reads this
    {
      if editor.Some? then {editor.value} else {}
    }

    ghost predicate Valid()
      reads this, importer, importer.cache, importer.cache.world, EditorParts()
    {
      importer.Valid() &&
      (editor.Some? ==> editor.value.importer == importer && |editor.value.dataPath| > 0 && phases == EditorPhases) &&
      (editor.None? ==> phases == RuntimePhases) &&
      (forall n :: CompletionOrder(schedule(n), n)) &&
      (state.Running? ==> next < 10 && (next > 0 ==> importer.data.Some?) && (next > 1 ==> importer.root.Some?))
    }

    constructor (importer: GltfImporter, editor: Option<EditorGltfImporter>, schedule: nat -> seq<nat>)
      requires importer.Valid() && (editor.Some? ==> editor.value.importer == importer && |editor.value.dataPath| > 0)
      requires forall n :: CompletionOrder(schedule(n), n)
      ensures Valid() && state == Running && next == 0
      ensures this.importer == importer && this.editor == editor && this.schedule == schedule
      ensures phases == if editor.Some? then EditorPhases else RuntimePhases
    {
      this.importer := importer;
      this.editor := editor;
      this.schedule := schedule;
      phases := if editor.Some? then EditorPhases else RuntimePhases;
      next := 0;
      state := Running;
    }

    /** The `OnAborted` / `OnException` hook: the importer's `Clear`, overridden in the editor. */
    method ClearHook()
      requires importer.Valid() && (editor.Some? ==> editor.value.importer == importer)
      modifies importer.cache.world, EditorParts()
      ensures importer.Valid()
      ensures importer.cache.DestroyedInOrder(importer.cache.Created())
      ensures editor.Some? ==> editor.value.removedDirectories == old(editor.value.removedDirectories) + [editor.value.importPath]
      ensures editor.Some? ==> editor.value.savedPrefabs == old(editor.value.savedPrefabs)
    {
      if editor.Some? {
        editor.value.Clear();
      } else {
        importer.Clear();
      }
    }

    /** The user aborts the task: `OnAborted` clears the import. */
    method Abort()
      requires Valid() && state.Running?
      modifies this`state, importer.cache.world, EditorParts()
      ensures Valid() && state == Aborted && next == old(next)
      ensures importer.cache.DestroyedInOrder(importer.cache.Created())
    {
      ClearHook();
      state := Aborted;
    }

    /**
     * Runs the next subtask to completion. A subtask that throws ends the
     * task with its exception after `OnException` has cleared the import;
     * the last subtask's value completes the task.
     */
    method Step()
      requires Valid() && state.Running?
      modifies this`next, this`state, importer, importer.cache, importer.cache.world, EditorParts()
      ensures Valid() && next == old(next) + 1
      ensures state.Running? ==> next < 10
      ensures state.Completed? ==> next == 10
      ensures state != Aborted
      ensures old(next) < 9 && !state.Failed? ==> importer.cache.world.destroyLog == old(importer.cache.world.destroyLog)
      ensures old(next) < 9 && state.Failed? ==>
        importer.cache.world.destroyLog == old(importer.cache.world.destroyLog) + importer.cache.Created()
      ensures next == 10 && editor.None? ==>
        state == Completed(SceneObject(importer.cache.scene)) && unchanged(importer.cache.world)
      ensures state.Failed? && editor.Some? ==>
        editor.value.removedDirectories == old(editor.value.removedDirectories) + [editor.value.importPath]
    {
      PhasePosition(next);
      var p := phases[next];
      var outcome: Outcome<ImportError>;
      if Position(p) == 9 {
        var result;
        outcome, result := RunFinalPhase(p);
        if outcome.Pass? {
          next, state := 10, Completed(result);
          return;
        }
      } else {
        outcome := RunLoadingPhase(p);
      }
      next := next + 1;
      if outcome.Fail? {
        FailWith(outcome.error);
      }
    }

    /** `OnException`: the import is cleared and the task ends with the exception. */
    method FailWith(error: ImportError)
      requires importer.Valid() && (editor.Some? ==> editor.value.importer == importer)
      modifies this`state, importer.cache.world, EditorParts()
      ensures importer.Valid() && state == TaskState.Failed(error)
      ensures importer.cache.world.destroyLog == old(importer.cache.world.destroyLog) + importer.cache.Created()
      ensures editor.Some? ==> editor.value.removedDirectories == old(editor.value.removedDirectories) + [editor.value.importPath]
    {
      ClearHook();
      state := TaskState.Failed(error);
    }

    /** The last subtask: `CreatePrefabEnum` in the editor, `GetSceneObjectEnum` at runtime. */
    method RunFinalPhase(p: Phase) returns (outcome: Outcome<ImportError>, result: TaskResult)
      requires importer.Valid() && Position(p) == 9
      requires editor.Some? ==> editor.value.importer == importer && |editor.value.dataPath| > 0 && p == CreatePrefabPhase
      requires editor.None? ==> p == GetSceneObjectPhase
      modifies importer.cache.world, EditorParts()
      ensures importer.Valid()
      ensures editor.None? ==> outcome.Pass? && result == SceneObject(importer.cache.scene) && unchanged(importer.cache.world)
      ensures editor.Some? && outcome.Pass? ==> result.Prefab?
      ensures editor.Some? ==> editor.value.removedDirectories == old(editor.value.removedDirectories)
    {
      if p == CreatePrefabPhase {
        var prefab;
        outcome, prefab := editor.value.CreatePrefabEnum();
        result := if prefab.Some? then Prefab(prefab.value) else SceneObject(None);
      } else {
        outcome, result := Pass, SceneObject(importer.SceneObject());
      }
    }

    /** One of the nine loading subtasks, run on the importer. */
    method RunLoadingPhase(p: Phase) returns (outcome: Outcome<ImportError>)
      requires importer.Valid() && Position(p) < 9 && (forall n :: CompletionOrder(schedule(n), n))
      requires Position(p) > 0 ==> importer.data.Some?
      requires Position(p) > 1 ==> importer.root.Some?
      modifies importer, importer.cache, importer.cache.world
      ensures importer.Valid() && importer.cache.world.destroyLog == old(importer.cache.world.destroyLog)
      ensures old(importer.data).Some? ==> importer.data.Some?
      ensures old(importer.root).Some? ==> importer.root.Some?
      ensures outcome.Pass? && p == ReadUriPhase ==> importer.data.Some?
      ensures outcome.Pass? && p == ParseFilePhase ==> importer.root.Some?
    {
      match p {
        case ReadUriPhase =>
          outcome := importer.ReadUri();
        case ParseFilePhase =>
          outcome := importer.ParseFile();
        case LoadBuffersPhase =>
          outcome := RunAssetPhase(p);
        case LoadTexturesPhase =>
          outcome := RunAssetPhase(p);
        case LoadMaterialsPhase =>
          outcome := RunAssetPhase(p);
        case LoadMeshesPhase =>
          outcome := RunLoadMeshes();
        case LoadScenePhase =>
          outcome := RunLoadScene();
        case LoadMorphTargetsPhase =>
          outcome := RunDeformPhase(p);
        case LoadSkinsPhase =>
          outcome := RunDeformPhase(p);
      }
    }

    /** `LoadBuffers`, `LoadTextures` or `LoadMaterials`: they fill the cache's asset lists and touch no object. */
    method RunAssetPhase(p: Phase) returns (outcome: Outcome<ImportError>)
      requires importer.Valid() && importer.data.Some? && importer.root.Some?
      requires p == LoadBuffersPhase || p == LoadTexturesPhase || p == LoadMaterialsPhase
      requires forall n :: CompletionOrder(schedule(n), n)
      modifies importer`reports, importer.cache`buffers, importer.cache`textures, importer.cache`materials
      ensures importer.Valid()
    {
      if p == LoadBuffersPhase {
        outcome := importer.LoadBuffers();
      } else if p == LoadTexturesPhase {
        outcome := importer.LoadTextures(schedule(|importer.root.value.textures|));
      } else {
        outcome := importer.LoadMaterials();
      }
    }

    /** `LoadMeshes`: it only adds meshes, so the objects the cache refers to stay valid. */
    method RunLoadMeshes() returns (outcome: Outcome<ImportError>)
      requires importer.Valid() && importer.root.Some?
      modifies importer`reports, importer.cache`meshes, importer.cache`meshesWithMorphTargets, importer.cache.world
      ensures importer.Valid() && importer.cache.world.destroyLog == old(importer.cache.world.destroyLog)
    {
      ghost var added;
      outcome, added := importer.LoadMeshes();
      importer.cache.ConsistentKept();
    }

    /** `LoadScene`: the cache invariant holds again of the scene it builds. */
    method RunLoadScene() returns (outcome: Outcome<ImportError>)
      requires importer.Valid() && importer.root.Some?
      modifies importer`reports, importer.cache, importer.cache.world
      ensures importer.Valid() && importer.cache.world.destroyLog == old(importer.cache.world.destroyLog)
    {
      LoadSceneKeeps(importer.env, importer.uri, importer.root.value, importer.cache.meshes, importer.SceneStateNow());
      outcome := importer.LoadScene();
      importer.ValidFromScene();
    }

    /** `LoadMorphTargets` or `LoadSkins`: they change existing objects and meshes and allocate nothing. */
    method RunDeformPhase(p: Phase) returns (outcome: Outcome<ImportError>)
      requires importer.Valid() && importer.root.Some?
      requires p == LoadMorphTargetsPhase || p == LoadSkinsPhase
      modifies importer`reports, importer.cache.world
      ensures importer.Valid() && importer.cache.world.destroyLog == old(importer.cache.world.destroyLog)
    {
      if p == LoadMorphTargetsPhase {
        outcome := importer.LoadMorphTargets();
      } else {
        outcome := importer.LoadSkins();
      }
      importer.cache.ConsistentKept();
    }
  }

  /** `RuntimeGltfImporter.GetImportTask(uri, data)`: the ten runtime subtasks on a new runtime importer. */
  method RuntimeGetImportTask(env: Env, world: World, uri: Option<Uri>, data: Option<Bytes>, schedule: nat -> seq<nat>)
    returns (task: ImportTask)
    requires world.Valid() && forall n :: CompletionOrder(schedule(n), n)
    ensures fresh(task) && fresh(task.importer) && fresh(task.importer.cache)
    ensures task.Valid() && task.state == Running && task.next == 0 && task.phases == RuntimePhases
    ensures task.editor.None? && task.importer.cache.world == world && task.importer.flipByScale
    ensures task.importer.uri == uri && task.importer.data == data && task.importer.reports == []
  {
    var importer := NewRuntimeImporter(env, world, uri, data);
    task := new ImportTask(importer, None, schedule);
  }

  /** `GetImportTask(Uri)`: no input bytes, so the first subtask reads the URI. */
  method RuntimeGetImportTaskFromUri(env: Env, world: World, uri: Uri, schedule: nat -> seq<nat>) returns (task: ImportTask)
    requires world.Valid() && forall n :: CompletionOrder(schedule(n), n)
    ensures fresh(task) && task.Valid() && task.state == Running && task.phases == RuntimePhases
    ensures task.importer.uri == Some(uri) && task.importer.data.None?
  {
    task := RuntimeGetImportTask(env, world, Some(uri), None, schedule);
  }

  /** `GetImportTask(string)`: the string parsed as a URI; a malformed one throws before any task exists. */
  method RuntimeGetImportTaskFromString(env: Env, world: World, uri: string, schedule: nat -> seq<nat>)
    returns (r: Result<ImportTask, ImportError>)
    requires world.Valid() && forall n :: CompletionOrder(schedule(n), n)
    ensures env.parseUri(uri).None? <==> r == Err(UriFormat)
    ensures r.Ok? ==> fresh(r.value) && r.value.Valid() && r.value.state == Running && r.value.phases == RuntimePhases &&
                      r.value.importer.uri == env.parseUri(uri) && r.value.importer.data.None?
  {
    var parsed := env.parseUri(uri);
    if parsed.None? {
      return Err(UriFormat);
    }
    var task := RuntimeGetImportTask(env, world, parsed, None, schedule);
    r := Ok(task);
  }

  /** `GetImportTask(byte[])`: the input bytes and no URI. */
  method RuntimeGetImportTaskFromBytes(env: Env, world: World, data: Bytes, schedule: nat -> seq<nat>) returns (task: ImportTask)
    requires world.Valid() && forall n :: CompletionOrder(schedule(n), n)
    ensures fresh(task) && task.Valid() && task.state == Running && task.phases == RuntimePhases
    ensures task.importer.uri.None? && task.importer.data == Some(data)
  {
    task := RuntimeGetImportTask(env, world, None, Some(data), schedule);
  }

  /** `EditorGltfImporter.GetImportTask(gltfPath, importPath)`: the ten editor subtasks on a new editor importer. */
  method EditorGetImportTask(env: Env, world: World, dataPath: string, gltfPath: string, importPath: string,
                             schedule: nat -> seq<nat>)
    returns (r: Result<ImportTask, ImportError>)
    requires world.Valid() && |dataPath| > 0 && forall n :: CompletionOrder(schedule(n), n)
    ensures env.parseUri(gltfPath).None? <==> r == Err(UriFormat)
    ensures r.Ok? ==>
      var task := r.value;
      fresh(task) && task.Valid() && task.state == Running && task.next == 0 && task.phases == EditorPhases &&
      task.editor.Some? && fresh(task.editor.value) && task.editor.value.importPath == importPath &&
      task.importer.uri == env.parseUri(gltfPath) && task.importer.data.None? && !task.importer.flipByScale &&
      task.importer.cache.immediateDestroy
  {
    var parsed := env.parseUri(gltfPath);
    if parsed.None? {
      return Err(UriFormat);
    }
    var editor := new EditorGltfImporter(env, world, dataPath, parsed.value, importPath);
    var task := new ImportTask(editor.importer, Some(editor), schedule);
    r := Ok(task);
  }
}
