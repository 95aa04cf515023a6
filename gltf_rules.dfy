/**
 * The decisions `GltfImporter` makes without changing anything: where a
 * buffer or image comes from, how a relative URI is resolved, which
 * sampler settings and shader a texture or material gets, how a material's
 * properties are set, when a skin is valid, and how bone weights and
 * morph-target frames are built.
 */
module GltfImporterRules {
  import opened Wrappers
  import opened Strings
  import opened UnityMath
  import opened Engine
  import opened GltfSchema
  import opened ImportEnv
  import GltfUtils

  // ---------------------------------------------------------------------------
  // Zip archives and the input .gltf/.glb

  /** The regular expression `\.(gltf|glb)$` (`$` also matches before a final newline). */
  predicate IsGltfEntryName(name: string) {
    EndsWith(name, ".gltf") || EndsWith(name, ".glb") ||
    (|name| > 0 && name[|name| - 1] == '\n' &&
     (EndsWith(name[..|name| - 1], ".gltf") || EndsWith(name[..|name| - 1], ".glb")))
  }

  /** Index of the first entry whose name matches, or `|entries|`. */
  function GltfEntryIndex(entries: seq<ZipEntry>): (k: nat)
    ensures k <= |entries|
    ensures forall j :: 0 <= j < k ==> !IsGltfEntryName(entries[j].name)
    ensures k < |entries| ==> IsGltfEntryName(entries[k].name)
  {
    if |entries| == 0 then 0
    else if IsGltfEntryName(entries[0].name) then 0
    else 1 + GltfEntryIndex(entries[1..])
  }

  /** The content of the first entry named exactly `path`, or null. */
  function EntryBytes(entries: seq<ZipEntry>, path: string): (r: Option<Bytes>)
    ensures r.None? <==> forall j :: 0 <= j < |entries| ==> entries[j].name != path
    ensures r.Some? ==> exists j :: 0 <= j < |entries| && entries[j].name == path && entries[j].content == r.value
  {
    if |entries| == 0 then None
    else if entries[0].name == path then Some(entries[0].content)
    else EntryBytes(entries[1..], path)
  }

  const NoGltfInZipArchive := "No .gltf/.glb file found in zip archive."
  const NoGltfInZip := "error: no .gltf/.glb file found in .zip"

  /** `GetGltfBytes`: the input itself, or the .gltf/.glb entry of a zip input. */
  function GetGltfBytes(env: Env, data: Bytes): (r: Result<Bytes, ImportError>)
    ensures !env.isZip(data) ==> r == Ok(data)
    ensures env.isZip(data) ==>
      (r.Ok? <==> exists j :: 0 <= j < |env.zipEntries(data)| && IsGltfEntryName(env.zipEntries(data)[j].name))
    ensures env.isZip(data) && r.Err? ==> r.error == Exception(NoGltfInZipArchive)
  {
    if !env.isZip(data) then Ok(data)
    else
      var entries := env.zipEntries(data);
      var k := GltfEntryIndex(entries);
      if k == |entries| then Err(Exception(NoGltfInZipArchive)) else Ok(entries[k].content)
  }

  // ---------------------------------------------------------------------------
  // ResolveUri

  /** The zip case: `uriStr` placed in the directory of the .gltf/.glb entry. */
  function ZipRelative(entryName: string, uriStr: string): string {
    var slash := LastIndexOf(entryName, '/');
    if slash < 0 then uriStr else entryName[..slash] + "/" + uriStr
  }

  /** An entry at the root of the archive leaves the URI as it is. */
  lemma ZipRelativeAtRoot(entryName: string, uriStr: string)
    requires '/' !in entryName
    ensures ZipRelative(entryName, uriStr) == uriStr
  {
  }

  /** An entry `dir/file` puts the URI in `dir`, however many slashes `dir` holds. */
  lemma ZipRelativeInDirectory(dir: string, file: string, uriStr: string)
    requires '/' !in file
    ensures ZipRelative(dir + "/" + file, uriStr) == dir + "/" + uriStr
  {
    var name := dir + "/" + file;
    var slash := LastIndexOf(name, '/');
    assert name[|dir|] == '/';
    assert slash >= |dir|;
    assert name[..|dir|] == dir;
  }

  /**
   * `ResolveUri`: an absolute URI is returned unchanged; in a zip input it
   * is placed next to the .gltf/.glb entry; otherwise it is combined with
   * the input URI, after the WebGL and Android checks.
   */
  function ResolveUri(env: Env, data: Bytes, baseUri: Option<Uri>, uriStr: string): (r: Result<string, ImportError>)
    ensures env.isAbsoluteUri(uriStr) ==> r == Ok(uriStr)
    ensures !env.isAbsoluteUri(uriStr) && env.isZip(data) ==>
      (r.Ok? <==> GltfEntryIndex(env.zipEntries(data)) < |env.zipEntries(data)|)
    ensures !env.isAbsoluteUri(uriStr) && !env.isZip(data) ==>
      (r.Ok? <==> baseUri.Some? && baseUri.value.isAbsolute &&
                  !(env.platform == Android && baseUri.value.scheme == "content"))
  {
    if env.isAbsoluteUri(uriStr) then Ok(uriStr)
    else if env.isZip(data) then
      var entries := env.zipEntries(data);
      var k := GltfEntryIndex(entries);
      if k == |entries| then Err(Exception(NoGltfInZip))
      else Ok(ZipRelative(entries[k].name, uriStr))
    else if env.platform == WebGLPlayer && (baseUri.None? || !baseUri.value.isAbsolute) then
      Err(UriResolutionException)
    else if env.platform == Android && baseUri.None? then Err(ImportError.NullReference)
    else if env.platform == Android && !baseUri.value.isAbsolute then Err(InvalidOperation)
    else if env.platform == Android && baseUri.value.scheme == "content" then Err(UriResolutionException)
    else if baseUri.None? then Err(ArgumentNull)
    else if !baseUri.value.isAbsolute then Err(ArgumentOutOfRange)
    else Ok(env.combineUri(baseUri.value, uriStr))
  }

  /** With a zip input, the input URI plays no part in resolution. */
  lemma ZipResolutionIgnoresBaseUri(env: Env, data: Bytes, u1: Option<Uri>, u2: Option<Uri>, uriStr: string)
    requires env.isZip(data)
    ensures ResolveUri(env, data, u1, uriStr) == ResolveUri(env, data, u2, uriStr)
  {
  }

  // ---------------------------------------------------------------------------
  // LoadBuffer and LoadImage

  /**
   * `LoadBuffer`: the .glb binary chunk when the buffer has no URI, else a
   * data URI's bytes, else (after resolution) the zip entry, else the bytes
   * read from the resolved URI. A missing zip entry gives a null buffer.
   */
  function LoadBuffer(env: Env, data: Bytes, baseUri: Option<Uri>, buffer: Buffer, index: nat): (r: Result<Option<Bytes>, ImportError>)
    ensures buffer.uri.None? ==> (r.Ok? <==> GetGltfBytes(env, data).Ok?) && (r.Ok? ==> r.value.Some?)
    ensures buffer.uri.Some? && env.tryParseDataUri(buffer.uri.value).Some? ==> r == Ok(env.tryParseDataUri(buffer.uri.value))
    ensures buffer.uri.Some? && env.tryParseDataUri(buffer.uri.value).None? ==>
      (ResolveUri(env, data, baseUri, buffer.uri.value).Err? ==> r == Err(ResolveUri(env, data, baseUri, buffer.uri.value).error))
  {
    if buffer.uri.None? then
      var gltf := GetGltfBytes(env, data);
      if gltf.Err? then Err(gltf.error) else Ok(Some(env.extractBinaryChunk(gltf.value, index)))
    else
      var parsed := env.tryParseDataUri(buffer.uri.value);
      if parsed.Some? then Ok(parsed)
      else
        var resolved := ResolveUri(env, data, baseUri, buffer.uri.value);
        if resolved.Err? then Err(resolved.error)
        else if env.isZip(data) then Ok(EntryBytes(env.zipEntries(data), resolved.value))
        else
          var read := env.readBytes(resolved.value);
          if read.Err? then Err(read.error) else Ok(Some(read.value))
  }

  /** Embedded and data-URI buffers, and every buffer of a zip input, do not depend on the input URI. */
  lemma BufferIgnoresBaseUri(env: Env, data: Bytes, u1: Option<Uri>, u2: Option<Uri>, buffer: Buffer, index: nat)
    requires buffer.uri.None? || env.tryParseDataUri(buffer.uri.value).Some? || env.isZip(data)
    ensures LoadBuffer(env, data, u1, buffer, index) == LoadBuffer(env, data, u2, buffer, index)
  {
    if buffer.uri.Some? && env.tryParseDataUri(buffer.uri.value).None? {
      ZipResolutionIgnoresBaseUri(env, data, u1, u2, buffer.uri.value);
    }
  }

  /** `Buffer.BlockCopy` of a buffer view's bytes out of its buffer. */
  function BufferViewBytes(contents: Option<Bytes>, view: BufferView): (r: Result<Bytes, ImportError>)
    ensures r.Err? <==> contents.None? || view.byteOffset + view.byteLength > |contents.value|
    ensures contents.None? ==> r == Err(ArgumentNull)
    ensures r.Ok? ==> (|r.value| == view.byteLength &&
      forall i :: 0 <= i < view.byteLength ==> r.value[i] == contents.value[view.byteOffset + i])
  {
    if contents.None? then Err(ArgumentNull)
    else if view.byteOffset + view.byteLength > |contents.value| then Err(Argument)
    else Ok(contents.value[view.byteOffset..view.byteOffset + view.byteLength])
  }

  /**
   * `LoadImage`: decoded from the buffer view when the image has no URI,
   * else from a data URI, else (after resolution) from the zip entry, else
   * read from the resolved URI. `None` is a null texture.
   */
  function LoadImage(env: Env, data: Bytes, baseUri: Option<Uri>, buffers: seq<Option<Bytes>>, image: Image)
    : (r: Result<Option<ImageRef>, ImportError>)
    ensures image.uri.None? && image.bufferView.None? ==> r == Err(ImportError.NullReference)
    ensures image.uri.None? && image.bufferView.Some? && image.bufferView.value.buffer < |buffers| ==>
      (r.Ok? <==> BufferViewBytes(buffers[image.bufferView.value.buffer], image.bufferView.value).Ok?)
    ensures image.uri.Some? && env.tryParseDataUri(image.uri.value).Some? ==>
      r == Ok(env.decodeImage(env.tryParseDataUri(image.uri.value)))
  {
    if image.uri.None? then
      if image.bufferView.None? then Err(ImportError.NullReference)
      else
        var view := image.bufferView.value;
        if view.buffer >= |buffers| then Err(ArgumentOutOfRange)
        else
          var bytes := BufferViewBytes(buffers[view.buffer], view);
          if bytes.Err? then Err(bytes.error) else Ok(env.decodeImage(Some(bytes.value)))
    else
      var parsed := env.tryParseDataUri(image.uri.value);
      if parsed.Some? then Ok(env.decodeImage(parsed))
      else
        var resolved := ResolveUri(env, data, baseUri, image.uri.value);
        if resolved.Err? then Err(resolved.error)
        else if env.isZip(data) then Ok(env.decodeImage(EntryBytes(env.zipEntries(data), resolved.value)))
        else Ok(env.readTexture(resolved.value))
  }

  // ---------------------------------------------------------------------------
  // Textures

  /** The sampler mapping of `LoadTexture`: Bilinear/Repeat unless the sampler asks for Nearest/ClampToEdge. */
  function SamplerModes(sampler: Option<Sampler>): (r: (FilterMode, TextureWrapMode))
    ensures r.0 == Point <==> sampler.Some? && sampler.value.minFilter == Nearest
    ensures r.0 == Point || r.0 == Bilinear
    ensures r.1 == Clamp <==> sampler.Some? && sampler.value.wrapS == ClampToEdge
    ensures r.1 == Clamp || r.1 == TextureWrapMode.Repeat
  {
    if sampler.None? then (Bilinear, TextureWrapMode.Repeat)
    else
      var filter := if sampler.value.minFilter == Nearest then Point else Bilinear;
      var wrap := if sampler.value.wrapS == ClampToEdge then Clamp else TextureWrapMode.Repeat;
      (filter, wrap)
  }

  /** `LoadTexture(def, index)`: the image, with the sampler's filter and wrap modes; a null image throws. */
  function LoadTexture(env: Env, data: Bytes, baseUri: Option<Uri>, buffers: seq<Option<Bytes>>, images: seq<Image>, def: Texture)
    : (r: Result<Texture2D, ImportError>)
    requires def.source < |images|
    ensures r.Ok? <==> LoadImage(env, data, baseUri, buffers, images[def.source]).Ok? &&
                       LoadImage(env, data, baseUri, buffers, images[def.source]).value.Some?
    ensures r.Ok? ==> r.value.image == LoadImage(env, data, baseUri, buffers, images[def.source]).value.value &&
                      (r.value.filterMode, r.value.wrapMode) == SamplerModes(def.sampler) &&
                      r.value.asset.None?
  {
    var image := LoadImage(env, data, baseUri, buffers, images[def.source]);
    if image.Err? then Err(image.error)
    else if image.value.None? then Err(ImportError.NullReference)
    else
      var modes := SamplerModes(def.sampler);
      Ok(Texture2D(image.value.value, modes.0, modes.1, None))
  }

  // ---------------------------------------------------------------------------
  // Materials

  /** The alpha modes the shader choice distinguishes; any other value counts as OPAQUE. */
  function EffectiveAlphaMode(mode: AlphaMode): AlphaMode {
    if mode.OtherAlphaMode? then OPAQUE else mode
  }

  function ShaderFamily(specularGlossiness: bool): string {
    if specularGlossiness then "SpecularGlossiness" else "MetallicRoughness"
  }

  function ShaderSuffix(mode: AlphaMode): string {
    match EffectiveAlphaMode(mode)
    case MASK => "Mask"
    case BLEND => "Blend"
    case _ => "Opaque"
  }

  /** The shader of `LoadMaterial`: one of six "Piglet/..." shaders. */
  function ShaderName(specularGlossiness: bool, mode: AlphaMode): (r: string)
    ensures StartsWith(r, "Piglet/")
  {
    "Piglet/" + ShaderFamily(specularGlossiness) + ShaderSuffix(mode)
  }

  /** Different workflow or different effective alpha mode means a different shader. */
  lemma ShaderNameInjective(a: bool, m: AlphaMode, b: bool, n: AlphaMode)
    ensures ShaderName(a, m) == ShaderName(b, n) <==> a == b && EffectiveAlphaMode(m) == EffectiveAlphaMode(n)
  {
    var x, y := ShaderName(a, m), ShaderName(b, n);
    assert x[7] == ShaderFamily(a)[0] && y[7] == ShaderFamily(b)[0];
    assert |x| == 7 + |ShaderFamily(a)| + |ShaderSuffix(m)|;
    assert |y| == 7 + |ShaderFamily(b)| + |ShaderSuffix(n)|;
  }

  predicate InRange(info: Option<TextureInfo>, count: nat) {
    info.Some? ==> info.value.index < count
  }

  /** Every texture the material names is among the loaded textures. */
  predicate TexturesResolve(def: GltfSchema.Material, textures: seq<Option<Texture2D>>) {
    InRange(def.normalTexture, |textures|) && InRange(def.occlusionTexture, |textures|) &&
    InRange(def.emissiveTexture, |textures|) &&
    (def.pbrMetallicRoughness.Some? ==>
       InRange(def.pbrMetallicRoughness.value.baseColorTexture, |textures|) &&
       InRange(def.pbrMetallicRoughness.value.metallicRoughnessTexture, |textures|)) &&
    (def.specularGlossiness.Some? ==>
       InRange(def.specularGlossiness.value.diffuseTexture, |textures|) &&
       InRange(def.specularGlossiness.value.specularGlossinessTexture, |textures|))
  }

  /** The materials of a document whose indices resolve name only loaded textures. */
  lemma ResolvedMaterialTextures(root: Root, i: nat, textures: seq<Option<Texture2D>>)
    requires IndicesResolve(root) && i < |root.materials| && |textures| == |root.textures|
    ensures TexturesResolve(root.materials[i], textures)
  {
    var def := root.materials[i];
    assert forall t :: t in MaterialTextureRefs(def) ==> t < |textures|;
  }

  /** `SetMaterialTexture`: the runtime importer also flips the texture with a (1, -1) scale; the editor importer does not. */
  function SetMaterialTexture(m: Engine.Material, property: string, texture: Option<Texture2D>, flipByScale: bool): (r: Engine.Material)
    ensures r.textures == m.textures[property := texture]
    ensures r.textureScales == if flipByScale then m.textureScales[property := (1.0, -1.0)] else m.textureScales
    ensures r.shader == m.shader && r.name == m.name && r.floats == m.floats && r.colors == m.colors && r.asset == m.asset
  {
    var bound := m.(textures := m.textures[property := texture]);
    if flipByScale then bound.(textureScales := bound.textureScales[property := (1.0, -1.0)]) else bound
  }

  /** The texture map after a slot's texture is bound, if the slot names one. */
  function BoundTextures(base: map<string, Option<Texture2D>>, property: string, info: Option<TextureInfo>, textures: seq<Option<Texture2D>>)
    : map<string, Option<Texture2D>>
    requires InRange(info, |textures|)
  {
    if info.None? then base else base[property := textures[info.value.index]]
  }

  /** The texture-scale map after a slot's texture is bound, if the slot names one. */
  function ScaledTextures(base: map<string, (real, real)>, property: string, info: Option<TextureInfo>, flipByScale: bool)
    : map<string, (real, real)>
  {
    if info.Some? && flipByScale then base[property := (1.0, -1.0)] else base
  }

  /** Binds the texture a `TextureInfo` names, when it is present. */
  function BindTexture(m: Engine.Material, property: string, info: Option<TextureInfo>, textures: seq<Option<Texture2D>>, flipByScale: bool)
    : (r: Engine.Material)
    requires InRange(info, |textures|)
    ensures r.textures == BoundTextures(m.textures, property, info, textures)
    ensures r.textureScales == ScaledTextures(m.textureScales, property, info, flipByScale)
    ensures r.shader == m.shader && r.name == m.name && r.floats == m.floats && r.colors == m.colors && r.asset == m.asset
  {
    if info.None? then m else SetMaterialTexture(m, property, textures[info.value.index], flipByScale)
  }

  /** The metallic-roughness block of `LoadMaterial`. */
  function ApplyMetallicRoughness(m: Engine.Material, mr: PbrMetallicRoughness, textures: seq<Option<Texture2D>>, flipByScale: bool)
    : (r: Engine.Material)
    requires InRange(mr.baseColorTexture, |textures|) && InRange(mr.metallicRoughnessTexture, |textures|)
    ensures r.shader == m.shader && r.name == m.name && r.asset == m.asset
    ensures r.floats == m.floats["_metallicFactor" := mr.metallicFactor]["_roughnessFactor" := mr.roughnessFactor]
    ensures r.colors == m.colors["_baseColorFactor" := mr.baseColorFactor]
    ensures r.textures == BoundTextures(BoundTextures(m.textures, "_baseColorTexture", mr.baseColorTexture, textures),
                                        "_metallicRoughnessTexture", mr.metallicRoughnessTexture, textures)
    ensures r.textureScales == ScaledTextures(ScaledTextures(m.textureScales, "_baseColorTexture", mr.baseColorTexture, flipByScale),
                                              "_metallicRoughnessTexture", mr.metallicRoughnessTexture, flipByScale)
  {
    var m1 := m.(colors := m.colors["_baseColorFactor" := mr.baseColorFactor]);
    var m2 := BindTexture(m1, "_baseColorTexture", mr.baseColorTexture, textures, flipByScale);
    var m3 := m2.(floats := m2.floats["_metallicFactor" := mr.metallicFactor]["_roughnessFactor" := mr.roughnessFactor]);
    BindTexture(m3, "_metallicRoughnessTexture", mr.metallicRoughnessTexture, textures, flipByScale)
  }

  /** The specular-glossiness block of `LoadMaterial`; the specular colour gets alpha 1. */
  function ApplySpecularGlossiness(m: Engine.Material, sg: SpecularGlossiness, textures: seq<Option<Texture2D>>, flipByScale: bool)
    : (r: Engine.Material)
    requires InRange(sg.diffuseTexture, |textures|) && InRange(sg.specularGlossinessTexture, |textures|)
    ensures r.shader == m.shader && r.name == m.name && r.asset == m.asset
    ensures r.floats == m.floats["_glossinessFactor" := sg.glossinessFactor]
    ensures r.colors == m.colors["_diffuseFactor" := sg.diffuseFactor]
      ["_specularFactor" := Vec4(sg.specularFactor.x, sg.specularFactor.y, sg.specularFactor.z, 1.0)]
    ensures r.textures == BoundTextures(BoundTextures(m.textures, "_diffuseTexture", sg.diffuseTexture, textures),
                                        "_specularGlossinessTexture", sg.specularGlossinessTexture, textures)
    ensures r.textureScales == ScaledTextures(ScaledTextures(m.textureScales, "_diffuseTexture", sg.diffuseTexture, flipByScale),
                                              "_specularGlossinessTexture", sg.specularGlossinessTexture, flipByScale)
  {
    var m1 := m.(colors := m.colors["_diffuseFactor" := sg.diffuseFactor]);
    var m2 := BindTexture(m1, "_diffuseTexture", sg.diffuseTexture, textures, flipByScale);
    var spec := sg.specularFactor;
    var m3 := m2.(colors := m2.colors["_specularFactor" := Vec4(spec.x, spec.y, spec.z, 1.0)]);
    var m4 := m3.(floats := m3.floats["_glossinessFactor" := sg.glossinessFactor]);
    BindTexture(m4, "_specularGlossinessTexture", sg.specularGlossinessTexture, textures, flipByScale)
  }

  /** The common part of `LoadMaterial`: shader, name, alpha cutoff, normal, occlusion and emission. */
  function LoadCommon(def: GltfSchema.Material, textures: seq<Option<Texture2D>>, flipByScale: bool): (r: Engine.Material)
    requires TexturesResolve(def, textures)
    ensures r.shader == ShaderName(def.specularGlossiness.Some?, def.alphaMode) && r.name == def.name && r.asset.None?
    ensures r.floats == if def.alphaMode == MASK then map["_alphaCutoff" := def.alphaCutoff] else map[]
    ensures r.colors == map["_emissiveFactor" := def.emissiveFactor]
    ensures r.textures ==
      BoundTextures(BoundTextures(BoundTextures(map[], "_normalTexture", def.normalTexture, textures),
        "_occlusionTexture", def.occlusionTexture, textures), "_emissiveTexture", def.emissiveTexture, textures)
    ensures r.textureScales ==
      ScaledTextures(ScaledTextures(ScaledTextures(map[], "_normalTexture", def.normalTexture, flipByScale),
        "_occlusionTexture", def.occlusionTexture, flipByScale), "_emissiveTexture", def.emissiveTexture, flipByScale)
  {
    var m0 := NewMaterial(ShaderName(def.specularGlossiness.Some?, def.alphaMode)).(name := def.name);
    var m1 := if def.alphaMode == MASK then m0.(floats := m0.floats["_alphaCutoff" := def.alphaCutoff]) else m0;
    var m2 := BindTexture(m1, "_normalTexture", def.normalTexture, textures, flipByScale);
    var m3 := BindTexture(m2, "_occlusionTexture", def.occlusionTexture, textures, flipByScale);
    var m4 := m3.(colors := m3.colors["_emissiveFactor" := def.emissiveFactor]);
    BindTexture(m4, "_emissiveTexture", def.emissiveTexture, textures, flipByScale)
  }

  /** The common part followed by the metallic-roughness block, when the definition has one. */
  function LoadMaterialBase(def: GltfSchema.Material, textures: seq<Option<Texture2D>>, flipByScale: bool): Engine.Material
    requires TexturesResolve(def, textures)
  {
    var common := LoadCommon(def, textures, flipByScale);
    if def.pbrMetallicRoughness.Some?
    then ApplyMetallicRoughness(common, def.pbrMetallicRoughness.value, textures, flipByScale) else common
  }

  /** `LoadMaterial`: a new material on the chosen shader, with the definition's factors and textures set. */
  function LoadMaterial(def: GltfSchema.Material, textures: seq<Option<Texture2D>>, flipByScale: bool): Engine.Material
    requires TexturesResolve(def, textures)
  {
    var mr := LoadMaterialBase(def, textures, flipByScale);
    if def.specularGlossiness.Some?
    then ApplySpecularGlossiness(mr, def.specularGlossiness.value, textures, flipByScale) else mr
  }

  /** The steps of `LoadMaterial` keep the shader, the name and the missing asset of the common part. */
  lemma LoadMaterialSteps(def: GltfSchema.Material, textures: seq<Option<Texture2D>>, flipByScale: bool)
    requires TexturesResolve(def, textures)
    ensures var common := LoadCommon(def, textures, flipByScale);
      var mr := LoadMaterialBase(def, textures, flipByScale);
      var r := LoadMaterial(def, textures, flipByScale);
      mr.shader == r.shader == common.shader && mr.name == r.name == common.name && r.asset.None? &&
      (def.specularGlossiness.None? ==> r == mr) &&
      (def.specularGlossiness.Some? ==>
         r.floats == mr.floats["_glossinessFactor" := def.specularGlossiness.value.glossinessFactor] &&
         r.colors == mr.colors["_diffuseFactor" := def.specularGlossiness.value.diffuseFactor]
           ["_specularFactor" := Vec4(def.specularGlossiness.value.specularFactor.x, def.specularGlossiness.value.specularFactor.y,
                                      def.specularGlossiness.value.specularFactor.z, 1.0)])
  {
  }

  /** Shader, name and scalar properties of a loaded material, in terms of its definition. */
  lemma LoadMaterialProperties(def: GltfSchema.Material, textures: seq<Option<Texture2D>>, flipByScale: bool)
    requires TexturesResolve(def, textures)
    ensures var r := LoadMaterial(def, textures, flipByScale);
      r.shader == ShaderName(def.specularGlossiness.Some?, def.alphaMode) && r.name == def.name && r.asset.None? &&
      ("_alphaCutoff" in r.floats <==> def.alphaMode == MASK) &&
      (def.alphaMode == MASK ==> r.floats["_alphaCutoff"] == def.alphaCutoff) &&
      ("_metallicFactor" in r.floats <==> def.pbrMetallicRoughness.Some?) &&
      ("_roughnessFactor" in r.floats <==> def.pbrMetallicRoughness.Some?) &&
      ("_glossinessFactor" in r.floats <==> def.specularGlossiness.Some?)
  {
    FloatKeysDistinct();
    var common := LoadCommon(def, textures, flipByScale);
    var mr := LoadMaterialBase(def, textures, flipByScale);
    assert mr.floats == if def.pbrMetallicRoughness.Some?
      then common.floats["_metallicFactor" := def.pbrMetallicRoughness.value.metallicFactor]
                        ["_roughnessFactor" := def.pbrMetallicRoughness.value.roughnessFactor]
      else common.floats;
    LoadMaterialSteps(def, textures, flipByScale);
  }

  /** The float property names differ (in their second character). */
  lemma FloatKeysDistinct()
    ensures "_alphaCutoff" != "_metallicFactor" && "_alphaCutoff" != "_roughnessFactor" && "_alphaCutoff" != "_glossinessFactor"
    ensures "_metallicFactor" != "_roughnessFactor" && "_metallicFactor" != "_glossinessFactor"
    ensures "_roughnessFactor" != "_glossinessFactor"
  {
    assert "_alphaCutoff"[1] == 'a' && "_metallicFactor"[1] == 'm';
    assert "_roughnessFactor"[1] == 'r' && "_glossinessFactor"[1] == 'g';
  }

  /** The colour properties of a loaded material. */
  lemma LoadMaterialColors(def: GltfSchema.Material, textures: seq<Option<Texture2D>>, flipByScale: bool)
    requires TexturesResolve(def, textures)
    ensures var r := LoadMaterial(def, textures, flipByScale);
      "_emissiveFactor" in r.colors && r.colors["_emissiveFactor"] == def.emissiveFactor &&
      ("_baseColorFactor" in r.colors <==> def.pbrMetallicRoughness.Some?) &&
      ("_diffuseFactor" in r.colors <==> def.specularGlossiness.Some?) &&
      ("_specularFactor" in r.colors <==> def.specularGlossiness.Some?) &&
      (def.specularGlossiness.Some? ==> r.colors["_specularFactor"].w == 1.0)
  {
    ColorKeysDistinct();
    var common := LoadCommon(def, textures, flipByScale);
    var mr := LoadMaterialBase(def, textures, flipByScale);
    assert mr.colors == if def.pbrMetallicRoughness.Some?
      then common.colors["_baseColorFactor" := def.pbrMetallicRoughness.value.baseColorFactor] else common.colors;
    LoadMaterialSteps(def, textures, flipByScale);
  }

  /** The colour property names differ (in their second character). */
  lemma ColorKeysDistinct()
    ensures "_emissiveFactor" != "_baseColorFactor" && "_emissiveFactor" != "_diffuseFactor" && "_emissiveFactor" != "_specularFactor"
    ensures "_baseColorFactor" != "_diffuseFactor" && "_baseColorFactor" != "_specularFactor"
    ensures "_diffuseFactor" != "_specularFactor"
  {
    assert "_emissiveFactor"[1] == 'e' && "_baseColorFactor"[1] == 'b';
    assert "_diffuseFactor"[1] == 'd' && "_specularFactor"[1] == 's';
  }

  /**
   * A texture slot is bound exactly when the definition names a texture for
   * it, to the texture loaded at that index, and gets the (1, -1) scale
   * exactly when it is bound and the importer flips by scale.
   */
  predicate SlotBound(r: Engine.Material, property: string, info: Option<TextureInfo>, textures: seq<Option<Texture2D>>, flipByScale: bool)
    requires InRange(info, |textures|)
  {
    (property in r.textures <==> info.Some?) &&
    (info.Some? ==> r.textures[property] == textures[info.value.index]) &&
    (property in r.textureScales <==> info.Some? && flipByScale) &&
    (property in r.textureScales ==> r.textureScales[property] == (1.0, -1.0))
  }

  /** No texture and no scale is set for the property. */
  predicate Unbound(r: Engine.Material, property: string) {
    property !in r.textures && property !in r.textureScales
  }

  /** The common part binds its three slots and none of the workflow slots. */
  lemma LoadCommonSlots(def: GltfSchema.Material, textures: seq<Option<Texture2D>>, flipByScale: bool)
    requires TexturesResolve(def, textures)
    ensures var r := LoadCommon(def, textures, flipByScale);
      SlotBound(r, "_normalTexture", def.normalTexture, textures, flipByScale) &&
      SlotBound(r, "_occlusionTexture", def.occlusionTexture, textures, flipByScale) &&
      SlotBound(r, "_emissiveTexture", def.emissiveTexture, textures, flipByScale) &&
      Unbound(r, "_baseColorTexture") && Unbound(r, "_metallicRoughnessTexture") &&
      Unbound(r, "_diffuseTexture") && Unbound(r, "_specularGlossinessTexture")
  {
    var r := LoadCommon(def, textures, flipByScale);
    assert r.textures.Keys <= {"_normalTexture", "_occlusionTexture", "_emissiveTexture"};
    assert r.textureScales.Keys <= {"_normalTexture", "_occlusionTexture", "_emissiveTexture"};
  }

  /** The metallic-roughness block binds its two slots ... */
  lemma MetallicRoughnessSlots(m: Engine.Material, mr: PbrMetallicRoughness, textures: seq<Option<Texture2D>>, flipByScale: bool)
    requires InRange(mr.baseColorTexture, |textures|) && InRange(mr.metallicRoughnessTexture, |textures|)
    requires Unbound(m, "_baseColorTexture") && Unbound(m, "_metallicRoughnessTexture")
    ensures var r := ApplyMetallicRoughness(m, mr, textures, flipByScale);
      SlotBound(r, "_baseColorTexture", mr.baseColorTexture, textures, flipByScale) &&
      SlotBound(r, "_metallicRoughnessTexture", mr.metallicRoughnessTexture, textures, flipByScale)
  {
  }

  /** ... and leaves every other slot as it was. */
  lemma MetallicRoughnessKeeps(m: Engine.Material, mr: PbrMetallicRoughness, textures: seq<Option<Texture2D>>, flipByScale: bool,
                               property: string, info: Option<TextureInfo>)
    requires InRange(mr.baseColorTexture, |textures|) && InRange(mr.metallicRoughnessTexture, |textures|)
    requires InRange(info, |textures|)
    requires property != "_baseColorTexture" && property != "_metallicRoughnessTexture"
    ensures var r := ApplyMetallicRoughness(m, mr, textures, flipByScale);
      (SlotBound(m, property, info, textures, flipByScale) ==> SlotBound(r, property, info, textures, flipByScale)) &&
      (Unbound(m, property) ==> Unbound(r, property))
  {
  }

  /** The specular-glossiness block binds its two slots ... */
  lemma SpecularGlossinessSlots(m: Engine.Material, sg: SpecularGlossiness, textures: seq<Option<Texture2D>>, flipByScale: bool)
    requires InRange(sg.diffuseTexture, |textures|) && InRange(sg.specularGlossinessTexture, |textures|)
    requires Unbound(m, "_diffuseTexture") && Unbound(m, "_specularGlossinessTexture")
    ensures var r := ApplySpecularGlossiness(m, sg, textures, flipByScale);
      SlotBound(r, "_diffuseTexture", sg.diffuseTexture, textures, flipByScale) &&
      SlotBound(r, "_specularGlossinessTexture", sg.specularGlossinessTexture, textures, flipByScale)
  {
  }

  /** ... and leaves every other slot as it was. */
  lemma SpecularGlossinessKeeps(m: Engine.Material, sg: SpecularGlossiness, textures: seq<Option<Texture2D>>, flipByScale: bool,
                                property: string, info: Option<TextureInfo>)
    requires InRange(sg.diffuseTexture, |textures|) && InRange(sg.specularGlossinessTexture, |textures|)
    requires InRange(info, |textures|)
    requires property != "_diffuseTexture" && property != "_specularGlossinessTexture"
    ensures var r := ApplySpecularGlossiness(m, sg, textures, flipByScale);
      (SlotBound(m, property, info, textures, flipByScale) ==> SlotBound(r, property, info, textures, flipByScale)) &&
      (Unbound(m, property) ==> Unbound(r, property))
  {
  }

  /**
   * Every texture slot of a loaded material is bound exactly when the
   * definition names a texture for it, to the texture loaded at that index;
   * the slots of a workflow the material lacks stay empty.
   */
  lemma LoadMaterialTextures(def: GltfSchema.Material, textures: seq<Option<Texture2D>>, flipByScale: bool)
    requires TexturesResolve(def, textures)
    ensures var r := LoadMaterial(def, textures, flipByScale);
      SlotBound(r, "_normalTexture", def.normalTexture, textures, flipByScale) &&
      SlotBound(r, "_occlusionTexture", def.occlusionTexture, textures, flipByScale) &&
      SlotBound(r, "_emissiveTexture", def.emissiveTexture, textures, flipByScale)
    ensures var r := LoadMaterial(def, textures, flipByScale);
      (def.pbrMetallicRoughness.Some? ==>
         SlotBound(r, "_baseColorTexture", def.pbrMetallicRoughness.value.baseColorTexture, textures, flipByScale) &&
         SlotBound(r, "_metallicRoughnessTexture", def.pbrMetallicRoughness.value.metallicRoughnessTexture, textures, flipByScale)) &&
      (def.specularGlossiness.Some? ==>
         SlotBound(r, "_diffuseTexture", def.specularGlossiness.value.diffuseTexture, textures, flipByScale) &&
         SlotBound(r, "_specularGlossinessTexture", def.specularGlossiness.value.specularGlossinessTexture, textures, flipByScale))
    ensures var r := LoadMaterial(def, textures, flipByScale);
      (def.pbrMetallicRoughness.None? ==> Unbound(r, "_baseColorTexture") && Unbound(r, "_metallicRoughnessTexture")) &&
      (def.specularGlossiness.None? ==> Unbound(r, "_diffuseTexture") && Unbound(r, "_specularGlossinessTexture"))
  {
    var common := LoadCommon(def, textures, flipByScale);
    LoadCommonSlots(def, textures, flipByScale);
    var mr := common;
    if def.pbrMetallicRoughness.Some? {
      var x := def.pbrMetallicRoughness.value;
      mr := ApplyMetallicRoughness(common, x, textures, flipByScale);
      MetallicRoughnessSlots(common, x, textures, flipByScale);
      MetallicRoughnessKeeps(common, x, textures, flipByScale, "_normalTexture", def.normalTexture);
      MetallicRoughnessKeeps(common, x, textures, flipByScale, "_occlusionTexture", def.occlusionTexture);
      MetallicRoughnessKeeps(common, x, textures, flipByScale, "_emissiveTexture", def.emissiveTexture);
      MetallicRoughnessKeeps(common, x, textures, flipByScale, "_diffuseTexture", None);
      MetallicRoughnessKeeps(common, x, textures, flipByScale, "_specularGlossinessTexture", None);
    }
    var r := mr;
    if def.specularGlossiness.Some? {
      var y := def.specularGlossiness.value;
      r := ApplySpecularGlossiness(mr, y, textures, flipByScale);
      SpecularGlossinessSlots(mr, y, textures, flipByScale);
      SpecularGlossinessKeeps(mr, y, textures, flipByScale, "_normalTexture", def.normalTexture);
      SpecularGlossinessKeeps(mr, y, textures, flipByScale, "_occlusionTexture", def.occlusionTexture);
      SpecularGlossinessKeeps(mr, y, textures, flipByScale, "_emissiveTexture", def.emissiveTexture);
      if def.pbrMetallicRoughness.Some? {
        var x := def.pbrMetallicRoughness.value;
        SpecularGlossinessKeeps(mr, y, textures, flipByScale, "_baseColorTexture", x.baseColorTexture);
        SpecularGlossinessKeeps(mr, y, textures, flipByScale, "_metallicRoughnessTexture", x.metallicRoughnessTexture);
      } else {
        SpecularGlossinessKeeps(mr, y, textures, flipByScale, "_baseColorTexture", None);
        SpecularGlossinessKeeps(mr, y, textures, flipByScale, "_metallicRoughnessTexture", None);
      }
    }
    assert r == LoadMaterial(def, textures, flipByScale);
  }

  // ---------------------------------------------------------------------------
  // Meshes, nodes and skins

  /** `HasMorphTargets`: the primitive has a non-null, non-empty target list. */
  predicate HasMorphTargets(p: MeshPrimitive) {
    p.targets.Some? && |p.targets.value| > 0
  }

  /** The material a primitive is drawn with: its own when it names one, else the default material. */
  function PrimitiveMaterial(p: MeshPrimitive, materials: seq<Engine.Material>, default: Engine.Material): (r: Engine.Material)
    requires p.material.Some? && p.material.value >= 0 ==> p.material.value < |materials|
    ensures p.material.None? || p.material.value < 0 ==> r == default
    ensures p.material.Some? && p.material.value >= 0 ==> r == materials[p.material.value]
  {
    if p.material.Some? && p.material.value >= 0 then materials[p.material.value] else default
  }

  /** `CreateNode`'s name: the node's name when non-null and non-empty, else "GLTFNode_" and the index. */
  function NodeName(node: Node, index: nat): string {
    if node.name.Some? && |node.name.value| > 0 then node.name.value else "GLTFNode_" + IntToString(index)
  }

  /** `SetupMeshNodes`' name for extra primitive objects: `node.Name ?? "GLTFNode_" + index`. */
  function SiblingName(node: Node, index: nat): string {
    if node.name.Some? then node.name.value else "GLTFNode_" + IntToString(index)
  }

  /** The two names agree except for a node whose name is the empty string. */
  lemma SiblingNameAgrees(node: Node, index: nat)
    ensures NodeName(node, index) == SiblingName(node, index) <==> node.name != Some("")
  {
    if node.name == Some("") {
      assert |NodeName(node, index)| > 0;
    }
  }

  /** `isValidSkin`; a skin with joints but no inverse bind matrices throws on `InverseBindMatrices.Value`. */
  function IsValidSkin(skins: seq<Skin>, index: nat): (r: Result<bool, ImportError>)
    ensures r == Ok(true) <==>
      index < |skins| && |skins[index].joints| > 0 && skins[index].inverseBindMatrices.Some? &&
      skins[index].inverseBindMatrices.value.count == |skins[index].joints|
    ensures r.Err? <==> index < |skins| && |skins[index].joints| > 0 && skins[index].inverseBindMatrices.None?
    ensures r.Err? ==> r.error == ImportError.NullReference
  {
    if index >= |skins| then Ok(false)
    else
      var skin := skins[index];
      if |skin.joints| == 0 then Ok(false)
      else if skin.inverseBindMatrices.None? then Err(ImportError.NullReference)
      else Ok(|skin.joints| == skin.inverseBindMatrices.value.count)
  }

  /** `(int)x` on a float: truncation toward zero. */
  function TruncateToInt(x: real): (r: int)
    ensures x >= 0.0 ==> r as real <= x < r as real + 1.0
    ensures x < 0.0 ==> r as real - 1.0 < x <= r as real
  {
    if x >= 0.0 then x.Floor else -((-x).Floor)
  }

  /** One vertex of `GetBoneWeights`: truncated bone indices and normalised weights. */
  function VertexBoneWeight(bones: Vec4, weights: Vec4): (r: BoneWeight)
    ensures |r.boneIndex| == 4
    ensures r.weight == GltfUtils.NormalizeBoneWeights(weights)
  {
    BoneWeight([TruncateToInt(bones.x), TruncateToInt(bones.y), TruncateToInt(bones.z), TruncateToInt(bones.w)],
               GltfUtils.NormalizeBoneWeights(weights))
  }

  function SkinningMessage(bones: nat, weights: nat, verts: nat): string {
    "Not enough skinning data (bones: " + NatToString(bones) + ", weights: " + NatToString(weights) +
    ", verts: " + NatToString(verts) + ")"
  }

  /**
   * `GetBoneWeights`: null without JOINTS_0 and WEIGHTS_0 attributes, null
   * with a logged error when their lengths differ from the vertex count,
   * else one `BoneWeight` per vertex. Returns the weights and the errors logged.
   */
  function GetBoneWeights(env: Env, buffers: seq<Option<Bytes>>, p: MeshPrimitive, vertexCount: nat)
    : (r: (Option<seq<BoneWeight>>, seq<string>))
    requires SkinBuffersIn(p, buffers)
    ensures r.0.Some? ==> (JOINT in p.attributes && WEIGHT in p.attributes && |r.0.value| == vertexCount &&
      |AttributeVector4s(env, buffers, p, JOINT)| == vertexCount && |AttributeVector4s(env, buffers, p, WEIGHT)| == vertexCount)
    ensures r.0.Some? ==> forall i :: 0 <= i < vertexCount ==>
      r.0.value[i] == VertexBoneWeight(AttributeVector4s(env, buffers, p, JOINT)[i], AttributeVector4s(env, buffers, p, WEIGHT)[i])
    ensures r.0.Some? ==> forall i :: 0 <= i < vertexCount && r.0.value[i].weight.Some? ==>
      GltfUtils.SumSeq(r.0.value[i].weight.value) == 1.0
    ensures |r.1| <= 1 && (|r.1| == 1 <==> JOINT in p.attributes && WEIGHT in p.attributes && r.0.None?)
  {
    if JOINT !in p.attributes || WEIGHT !in p.attributes then (None, [])
    else
      var joints := AttributeVector4s(env, buffers, p, JOINT);
      var weights := AttributeVector4s(env, buffers, p, WEIGHT);
      if |joints| != vertexCount || |weights| != vertexCount then
        (None, [SkinningMessage(|joints|, |weights|, vertexCount)])
      else
        (Some(seq(vertexCount, i requires 0 <= i < vertexCount => VertexBoneWeight(joints[i], weights[i]))), [])
  }

  /** An attribute's accessor read as `Vector4`s from its own buffer. */
  function AttributeVector4s(env: Env, buffers: seq<Option<Bytes>>, p: MeshPrimitive, attribute: string): seq<Vec4>
    requires attribute in p.attributes && p.attributes[attribute].bufferView.buffer < |buffers|
  {
    env.readVector4s(p.attributes[attribute], buffers[p.attributes[attribute].bufferView.buffer])
  }

  /** The JOINTS_0 and WEIGHTS_0 accessors, when both are present, name loaded buffers. */
  predicate SkinBuffersIn(p: MeshPrimitive, buffers: seq<Option<Bytes>>) {
    JOINT in p.attributes && WEIGHT in p.attributes ==>
      p.attributes[JOINT].bufferView.buffer < |buffers| && p.attributes[WEIGHT].bufferView.buffer < |buffers|
  }

  /** Every attribute accessor names a loaded buffer. */
  predicate PrimitiveBuffersIn(p: MeshPrimitive, buffers: seq<Option<Bytes>>) {
    forall k :: k in p.attributes ==> p.attributes[k].bufferView.buffer < |buffers|
  }

  // ---------------------------------------------------------------------------
  // Morph targets

  function Zeros(n: nat): (r: seq<Vec3>)
    ensures |r| == n
  {
    seq(n, _ => Vec3(0.0, 0.0, 0.0))
  }

  /**
   * One `AddBlendShapeFrame` of `LoadMorphTargets(mesh, m, p)`. The target
   * must have POSITION; the deltas are read from buffer 0 whatever buffer
   * the accessors name.
   */
  function MorphFrame(env: Env, buffers: seq<Option<Bytes>>, meshIndex: int, t: int, target: MorphTarget)
    : (r: Result<BlendShapeFrame, ImportError>)
    ensures r.Ok? <==> POSITION in target && |buffers| > 0
    ensures r.Ok? ==> (r.value.name == GltfUtils.BuildBlendShapeName(meshIndex, t) && r.value.weight == 1.0 &&
      r.value.deltaVertices == env.readVector3s(target[POSITION], buffers[0]) &&
      |r.value.deltaTangents| == target[POSITION].count)
  {
    if POSITION !in target then Err(KeyNotFound)
    else if |buffers| == 0 then Err(ArgumentOutOfRange)
    else
      var n := target[POSITION].count;
      var normals := if NORMAL in target then env.readVector3s(target[NORMAL], buffers[0]) else Zeros(n);
      Ok(BlendShapeFrame(GltfUtils.BuildBlendShapeName(meshIndex, t), 1.0,
                         env.readVector3s(target[POSITION], buffers[0]), normals, Zeros(n)))
  }

  /** The frames of the first `k` targets, stopping at the first failure. */
  function MorphFrames(env: Env, buffers: seq<Option<Bytes>>, meshIndex: int, targets: seq<MorphTarget>, k: nat)
    : (r: Result<seq<BlendShapeFrame>, ImportError>)
    requires k <= |targets|
    ensures r.Ok? ==> |r.value| == k
    ensures r.Ok? ==> forall t :: 0 <= t < k ==> Ok(r.value[t]) == MorphFrame(env, buffers, meshIndex, t, targets[t])
    decreases k
  {
    if k == 0 then Ok([])
    else
      var prev := MorphFrames(env, buffers, meshIndex, targets, k - 1);
      if prev.Err? then prev
      else
        var f := MorphFrame(env, buffers, meshIndex, k - 1, targets[k - 1]);
        if f.Err? then Err(f.error) else Ok(prev.value + [f.value])
  }

  /** The frames a primitive contributes to its mesh. */
  function PrimitiveFrames(env: Env, buffers: seq<Option<Bytes>>, meshIndex: int, p: MeshPrimitive)
    : Result<seq<BlendShapeFrame>, ImportError>
  {
    if !HasMorphTargets(p) then Ok([])
    else MorphFrames(env, buffers, meshIndex, p.targets.value, |p.targets.value|)
  }

  /** The frames of one primitive have pairwise distinct names. */
  lemma MorphFrameNamesDistinct(env: Env, buffers: seq<Option<Bytes>>, meshIndex: int, p: MeshPrimitive)
    requires PrimitiveFrames(env, buffers, meshIndex, p).Ok?
    ensures var frames := PrimitiveFrames(env, buffers, meshIndex, p).value;
      forall a, b :: 0 <= a < b < |frames| ==> frames[a].name != frames[b].name
  {
    var frames := PrimitiveFrames(env, buffers, meshIndex, p).value;
    if HasMorphTargets(p) {
      forall a, b | 0 <= a < b < |frames| ensures frames[a].name != frames[b].name {
        assert frames[a].name == GltfUtils.BuildBlendShapeName(meshIndex, a);
        assert frames[b].name == GltfUtils.BuildBlendShapeName(meshIndex, b);
        if frames[a].name == frames[b].name {
          GltfUtils.BuildBlendShapeNameInjective(meshIndex, a, meshIndex, b);
        }
      }
    }
  }
}
