/**
 * Piglet's `EditorGltfImportCache`: the import cache used inside the Unity
 * Editor. Besides holding the imported objects it saves textures,
 * materials and meshes as asset files under an import directory, and it
 * destroys objects with `Object.DestroyImmediate`.
 */
module EditorImportCache {
  import opened Wrappers
  import opened Strings
  import opened Engine
  import UnityPathUtil
  import opened ImportCaches

  /** `Path.Combine` with '/' as the directory separator. */
  function PathCombine(a: string, b: string): (r: string)
    ensures EndsWith(r, b)
  {
    if |b| > 0 && b[0] == '/' then b
    else if |a| == 0 then b
    else if a[|a| - 1] == '/' then a + b
    else a + "/" + b
  }

  /** A relative second part lands inside the first: the combined path is the first part plus a fixed glue. */
  lemma PathCombineInjective(dir: string, b: string, b': string)
    requires |b| > 0 && b[0] != '/' && |b'| > 0 && b'[0] != '/'
    requires PathCombine(dir, b) == PathCombine(dir, b')
    ensures b == b'
  {
    var glue := if |dir| == 0 then "" else if dir[|dir| - 1] == '/' then dir else dir + "/";
    assert PathCombine(dir, b) == glue + b;
    assert PathCombine(dir, b') == glue + b';
    assert b == (glue + b)[|glue|..];
    assert b' == (glue + b')[|glue|..];
  }

  function TextureFileName(index: nat): string {
    "texture_" + IntToString(index) + ".png"
  }

  function MaterialFileName(index: nat): string {
    "material_" + IntToString(index) + ".mat"
  }

  function MeshFileName(index: nat, primitive: nat): string {
    "mesh_" + (IntToString(index) + "_" + IntToString(primitive)) + ".asset"
  }

  const TexturesDirName := "Textures"
  const MaterialsDirName := "Materials"
  const MeshesDirName := "Meshes"

  /** Distinct textures are saved to distinct files of the textures directory. */
  lemma TextureFileNameInjective(i: nat, j: nat)
    requires TextureFileName(i) == TextureFileName(j)
    ensures i == j
  {
    var s := TextureFileName(i);
    assert IntToString(i) == s[8..|s| - 4];
    assert IntToString(j) == s[8..|s| - 4];
    IntToStringInjective(i, j);
  }

  /** Distinct materials are saved to distinct files of the materials directory. */
  lemma MaterialFileNameInjective(i: nat, j: nat)
    requires MaterialFileName(i) == MaterialFileName(j)
    ensures i == j
  {
    var s := MaterialFileName(i);
    assert IntToString(i) == s[9..|s| - 4];
    assert IntToString(j) == s[9..|s| - 4];
    IntToStringInjective(i, j);
  }

  /** Distinct (mesh, primitive) pairs are saved to distinct files of the meshes directory. */
  lemma MeshFileNameInjective(i: nat, p: nat, i': nat, p': nat)
    requires MeshFileName(i, p) == MeshFileName(i', p')
    ensures i == i' && p == p'
  {
    CancelAround("mesh_", IntToString(i) + "_" + IntToString(p), IntToString(i') + "_" + IntToString(p'), ".asset");
    assert '_' !in IntToString(i) by {
      forall k | 0 <= k < |IntToString(i)| ensures IntToString(i)[k] != '_' { assert IsDigit(IntToString(i)[k]); }
    }
    assert '_' !in IntToString(i') by {
      forall k | 0 <= k < |IntToString(i')| ensures IntToString(i')[k] != '_' { assert IsDigit(IntToString(i')[k]); }
    }
    SplitAtSeparator(IntToString(i), IntToString(p), IntToString(i'), IntToString(p'), '_');
    IntToStringInjective(i, i');
    IntToStringInjective(p, p');
  }

  /** Files of different kinds never collide, whatever directories they are saved in. */
  lemma AssetKindsDistinct(d1: string, d2: string, d3: string, i: nat, j: nat, k: nat, p: nat)
    ensures PathCombine(d1, TextureFileName(i)) != PathCombine(d2, MaterialFileName(j))
    ensures PathCombine(d1, TextureFileName(i)) != PathCombine(d3, MeshFileName(k, p))
    ensures PathCombine(d2, MaterialFileName(j)) != PathCombine(d3, MeshFileName(k, p))
  {
    var t, m, h := TextureFileName(i), MaterialFileName(j), MeshFileName(k, p);
    assert t[|t| - 1] == 'g';
    assert m[|m| - 1] == 't' && m[|m| - 2] == 'a';
    assert h[|h| - 1] == 't' && h[|h| - 2] == 'e';
    CombinedEnding(d1, t);
    CombinedEnding(d2, m);
    CombinedEnding(d3, h);
  }

  /** A combined path ends with the last two characters of its second part. */
  lemma CombinedEnding(d: string, name: string)
    requires |name| >= 2
    ensures var r := PathCombine(d, name);
            |r| >= 2 && r[|r| - 1] == name[|name| - 1] && r[|r| - 2] == name[|name| - 2]
  {
  }

  /**
   * The world's meshes after the first `n` primitives of mesh `index` were
   * saved: each saved mesh knows its asset file.
   */
  function BackedMeshes(meshes: map<MeshId, MeshData>, primitives: seq<Primitive>, dir: string, index: nat, n: nat)
    : (r: map<MeshId, MeshData>)
    requires n <= |primitives|
    requires forall i :: 0 <= i < |primitives| ==> primitives[i].mesh in meshes
    ensures r.Keys == meshes.Keys
  {
    if n == 0 then meshes
    else
      var before := BackedMeshes(meshes, primitives, dir, index, n - 1);
      var m := primitives[n - 1].mesh;
      before[m := before[m].(asset := Some(PathCombine(dir, MeshFileName(index, n - 1))))]
  }

  /** Asset paths of the first `n` primitives of mesh `index`, in order. */
  function MeshAssetPaths(dir: string, index: nat, n: nat): (r: seq<string>)
    ensures |r| == n
    ensures forall i :: 0 <= i < n ==> r[i] == PathCombine(dir, MeshFileName(index, i))
  {
    seq(n, i requires 0 <= i < n => PathCombine(dir, MeshFileName(index, i)))
  }

  /**
   * When the primitives use distinct meshes, saving mesh `index` backs
   * primitive `i` by its own file `mesh_{index}_{i}.asset` and changes
   * nothing else about it.
   */
  lemma {:induction false} BackedMeshesOwnFiles(meshes: map<MeshId, MeshData>, primitives: seq<Primitive>,
                                                dir: string, index: nat, n: nat)
    requires n <= |primitives|
    requires forall i :: 0 <= i < |primitives| ==> primitives[i].mesh in meshes
    requires forall i, j :: 0 <= i < j < |primitives| ==> primitives[i].mesh != primitives[j].mesh
    ensures forall i :: 0 <= i < n ==>
      BackedMeshes(meshes, primitives, dir, index, n)[primitives[i].mesh] ==
      meshes[primitives[i].mesh].(asset := Some(PathCombine(dir, MeshFileName(index, i))))
  {
    if n > 0 {
      BackedMeshesOwnFiles(meshes, primitives, dir, index, n - 1);
      BackedMeshesUntouched(meshes, primitives, dir, index, n - 1, primitives[n - 1].mesh);
      var last := primitives[n - 1].mesh;
      var before := BackedMeshes(meshes, primitives, dir, index, n - 1);
      var after := BackedMeshes(meshes, primitives, dir, index, n);
      assert after == before[last := before[last].(asset := Some(PathCombine(dir, MeshFileName(index, n - 1))))];
      forall i | 0 <= i < n - 1
        ensures after[primitives[i].mesh] == before[primitives[i].mesh]
      {
        assert primitives[i].mesh != last;
      }
    }
  }

  /** Saving mesh `index` leaves the meshes its primitives do not use alone. */
  lemma {:induction false} BackedMeshesUntouched(meshes: map<MeshId, MeshData>, primitives: seq<Primitive>,
                                                 dir: string, index: nat, n: nat, m: MeshId)
    requires n <= |primitives|
    requires forall i :: 0 <= i < |primitives| ==> primitives[i].mesh in meshes
    requires m in meshes && forall i :: 0 <= i < n ==> primitives[i].mesh != m
    ensures BackedMeshes(meshes, primitives, dir, index, n)[m] == meshes[m]
  {
    if n > 0 {
      BackedMeshesUntouched(meshes, primitives, dir, index, n - 1, m);
    }
  }

  /**
   * `TextureUtil.FlipTexture`: a new texture holding the flipped pixels.
   * Being new, it has Unity's default sampling settings (bilinear
   * filtering, repeat wrapping), not those of `texture`.
   */
  function FlipTexture(texture: Texture2D, flip: ImageRef -> ImageRef): Texture2D {
    Texture2D(flip(texture.image), Bilinear, Repeat, None)
  }

  class EditorGltfImportCache {
    /** The inherited cache state, with `Destroy` overridden by `Object.DestroyImmediate`. */
    const cache: GltfImportCache
    /** `Application.dataPath`, the absolute path of the project's Assets directory. */
    const dataPath: string
    const importBaseDir: string
    const importTexturesDir: string
    const importMaterialsDir: string
    const importMeshesDir: string
    /** Absolute paths passed to `Directory.CreateDirectory`, in call order. */
    var createdDirectories: seq<string>
    /** Absolute paths passed to `File.WriteAllBytes`, in call order. */
    var writtenFiles: seq<string>
    /** Project paths passed to `AssetDatabase.CreateAsset`, in call order. */
    var createdAssets: seq<string>

    ghost predicate Valid()
      reads this, cache, cache.world
    {
      cache.Valid() && cache.immediateDestroy &&
      importTexturesDir == PathCombine(importBaseDir, TexturesDirName) &&
      importMaterialsDir == PathCombine(importBaseDir, MaterialsDirName) &&
      importMeshesDir == PathCombine(importBaseDir, MeshesDirName)
    }

    /** `EditorGltfImportCache(importBaseDir)`: creates the base directory and its three asset directories. */
    constructor (world: World, dataPath: string, importBaseDir: string)
      requires world.Valid()
      ensures Valid() && fresh(cache) && cache.world == world
      ensures cache.nodes == map[] && cache.scene.None? && cache.textures == [] && cache.materials == [] && cache.meshes == []
      ensures this.dataPath == dataPath && this.importBaseDir == importBaseDir
      ensures createdDirectories == [
        UnityPathUtil.GetAbsolutePath(dataPath, importBaseDir),
        UnityPathUtil.GetAbsolutePath(dataPath, PathCombine(importBaseDir, TexturesDirName)),
        UnityPathUtil.GetAbsolutePath(dataPath, PathCombine(importBaseDir, MaterialsDirName)),
        UnityPathUtil.GetAbsolutePath(dataPath, PathCombine(importBaseDir, MeshesDirName))]
      ensures writtenFiles == [] && createdAssets == []
    {
      cache := new GltfImportCache(world, true);
      this.dataPath := dataPath;
      this.importBaseDir := importBaseDir;
      importTexturesDir := PathCombine(importBaseDir, TexturesDirName);
      importMaterialsDir := PathCombine(importBaseDir, MaterialsDirName);
      importMeshesDir := PathCombine(importBaseDir, MeshesDirName);
      createdDirectories := [
        UnityPathUtil.GetAbsolutePath(dataPath, importBaseDir),
        UnityPathUtil.GetAbsolutePath(dataPath, PathCombine(importBaseDir, TexturesDirName)),
        UnityPathUtil.GetAbsolutePath(dataPath, PathCombine(importBaseDir, MaterialsDirName)),
        UnityPathUtil.GetAbsolutePath(dataPath, PathCombine(importBaseDir, MeshesDirName))];
      writtenFiles := [];
      createdAssets := [];
    }

    /**
     * `SerializeTexture`: flips the texture right side up, writes it to
     * `texture_{index}.png` and returns the texture loaded back from that
     * asset. `flip` is the shader blit that turns the pixels upside down.
     */
    method SerializeTexture(index: nat, texture: Texture2D, flip: ImageRef -> ImageRef) returns (r: Texture2D)
      modifies this
      ensures r == FlipTexture(texture, flip).(asset := Some(PathCombine(importTexturesDir, TextureFileName(index))))
      ensures writtenFiles ==
        old(writtenFiles) + [UnityPathUtil.GetAbsolutePath(dataPath, PathCombine(importTexturesDir, TextureFileName(index)))]
      ensures createdDirectories == old(createdDirectories) && createdAssets == old(createdAssets)
    {
      var flipped := FlipTexture(texture, flip);
      var pngPath := PathCombine(importTexturesDir, TextureFileName(index));
      writtenFiles := writtenFiles + [UnityPathUtil.GetAbsolutePath(dataPath, pngPath)];
      r := flipped.(asset := Some(pngPath));
    }

    /** `SerializeMaterial`: creates `material_{index}.mat` and returns the material backed by it. */
    method SerializeMaterial(index: nat, material: Material) returns (r: Material)
      modifies this
      ensures r == material.(asset := Some(PathCombine(importMaterialsDir, MaterialFileName(index))))
      ensures createdAssets == old(createdAssets) + [PathCombine(importMaterialsDir, MaterialFileName(index))]
      ensures createdDirectories == old(createdDirectories) && writtenFiles == old(writtenFiles)
    {
      var path := PathCombine(importMaterialsDir, MaterialFileName(index));
      createdAssets := createdAssets + [path];
      r := material.(asset := Some(path));
    }

    /**
     * `SerializeMesh`: creates `mesh_{index}_{i}.asset` for each primitive
     * `i` in order; the primitive list itself comes back unchanged, its
     * meshes now backed by those files.
     */
    method SerializeMesh(index: nat, mesh: seq<Primitive>) returns (r: seq<Primitive>)
      requires cache.world.Valid()
      requires forall i :: 0 <= i < |mesh| ==> mesh[i].mesh in cache.world.meshes
      modifies this, cache.world
      ensures r == mesh
      ensures cache.world.Valid()
      ensures cache.world.meshes == BackedMeshes(old(cache.world.meshes), mesh, importMeshesDir, index, |mesh|)
      ensures createdAssets == old(createdAssets) + MeshAssetPaths(importMeshesDir, index, |mesh|)
      ensures cache.world.objects == old(cache.world.objects) && cache.world.nextId == old(cache.world.nextId)
      ensures cache.world.nextMesh == old(cache.world.nextMesh) && cache.world.destroyLog == old(cache.world.destroyLog)
      ensures cache.world.pendingDestroy == old(cache.world.pendingDestroy) && cache.world.errorLog == old(cache.world.errorLog)
      ensures createdDirectories == old(createdDirectories) && writtenFiles == old(writtenFiles)
    {
      BackMeshes(cache.world, mesh, importMeshesDir, index);
      createdAssets := createdAssets + MeshAssetPaths(importMeshesDir, index, |mesh|);
      r := mesh;
    }
  }

  /** The loop of `SerializeMesh`: each primitive's mesh becomes backed by its asset file, in order. */
  method BackMeshes(world: World, mesh: seq<Primitive>, dir: string, index: nat)
    requires world.Valid()
    requires forall i :: 0 <= i < |mesh| ==> mesh[i].mesh in world.meshes
    modifies world
    ensures world.Valid()
    ensures world.meshes == BackedMeshes(old(world.meshes), mesh, dir, index, |mesh|)
    ensures world.objects == old(world.objects) && world.nextId == old(world.nextId)
    ensures world.nextMesh == old(world.nextMesh) && world.destroyLog == old(world.destroyLog)
    ensures world.pendingDestroy == old(world.pendingDestroy) && world.errorLog == old(world.errorLog)
  {
    for i := 0 to |mesh|
      invariant world.Valid()
      invariant world.meshes == BackedMeshes(old(world.meshes), mesh, dir, index, i)
      invariant world.objects == old(world.objects) && world.nextId == old(world.nextId)
      invariant world.nextMesh == old(world.nextMesh) && world.destroyLog == old(world.destroyLog)
      invariant world.pendingDestroy == old(world.pendingDestroy) && world.errorLog == old(world.errorLog)
    {
      var m := mesh[i].mesh;
      world.SetMesh(m, world.meshes[m].(asset := Some(PathCombine(dir, MeshFileName(index, i)))));
    }
  }
}
