/**
 * What the importer calls but does not define: the platform, URI parsing
 * and combination, file and network reads, zip archives, JSON parsing,
 * image decoding and accessor decoding. Each is a parameter of the model,
 * carried in one `Env` value.
 */
module ImportEnv {
  import opened Wrappers
  import opened UnityMath
  import opened Engine
  import opened GltfSchema

  /** `Application.platform`, as far as the importer distinguishes it. */
  datatype Platform = WebGLPlayer | Android | OtherPlatform

  /** A `System.Uri`: its text, whether it is absolute, its scheme and `AbsolutePath`. */
  datatype Uri = Uri(text: string, isAbsolute: bool, scheme: string, absolutePath: string)

  datatype ZipEntry = ZipEntry(name: string, content: Bytes)

  /** `ImportStep`, the entity kind named in progress reports. */
  datatype ImportStep = Read | Download | Parse | BufferStep | ImageStep | TextureStep | MaterialStep
                      | MeshStep | NodeStep | MorphTargetStep | SkinStep | AnimationStep | NoStep

  /** One call of the progress callback. */
  datatype Progress = Progress(step: ImportStep, completed: int, total: int)

  /** The exceptions an import can end with. */
  datatype ImportError =
    | Exception(message: string)
    | JsonParseException
    | UriResolutionException
    | NullReference
    | MissingReference
    | ArgumentNull
    | ArgumentOutOfRange
    | Argument
    | InvalidOperation
    | KeyNotFound
    | DuplicateKey
    | ReadFailure
    | UriFormat

  /** What reading the input URI yields: the progress pairs reported on the way, and the data. */
  datatype ReadResult = ReadResult(progress: seq<(int, int)>, data: Result<Bytes, ImportError>)

  datatype Env = Env(
    platform: Platform,
    /** `UriUtil.IsLocalUri`. */
    isLocalUri: Option<Uri> -> bool,
    /** `UriUtil.ReadAllBytesEnum(_uri, onProgress)`. */
    readInput: Option<Uri> -> ReadResult,
    /** `UriUtil.ReadAllBytesEnum(uri)` for a resolved buffer URI. */
    readBytes: string -> Result<Bytes, ImportError>,
    /** `UriUtil.ReadTextureEnum(uri)`: the texture read, or null. */
    readTexture: string -> Option<ImageRef>,
    /** `ZipUtil.IsZipData`. */
    isZip: Bytes -> bool,
    /** The entries of a zip archive, in archive order. */
    zipEntries: Bytes -> seq<ZipEntry>,
    /** `UriUtil.TryParseDataUri`. */
    tryParseDataUri: string -> Option<Bytes>,
    /** `new Uri(s)`; `None` when it throws `UriFormatException`. */
    parseUri: string -> Option<Uri>,
    /** `new Uri(s, UriKind.RelativeOrAbsolute).IsAbsoluteUri`. */
    isAbsoluteUri: string -> bool,
    /** `new Uri(baseUri, relative).ToString()` for an absolute base. */
    combineUri: (Uri, string) -> string,
    /** `GLTFParser.ParseJson`; `None` when it throws. */
    parseJson: Bytes -> Option<Root>,
    /** `GLTFParser.ExtractBinaryChunk`. */
    extractBinaryChunk: (Bytes, nat) -> Bytes,
    /** `LoadTexture(byte[])`: the decoded texture, or null. */
    decodeImage: Option<Bytes> -> Option<ImageRef>,
    /** `Path.GetFileNameWithoutExtension`. */
    fileNameWithoutExtension: string -> string,
    /** `AsVector3Array(...).ToUnityVector3(true)` of an accessor over a buffer. */
    readVector3s: (Accessor, Option<Bytes>) -> seq<Vec3>,
    /** `AsVector4Array(...)` converted with `ToUnityVector4`. */
    readVector4s: (Accessor, Option<Bytes>) -> seq<Vec4>,
    /** `AsMatrixArray(...)` converted with `ToUnityMatrix().switchHandedness()`. */
    readMatrices: (Accessor, Option<Bytes>) -> seq<Matrix>)
}
