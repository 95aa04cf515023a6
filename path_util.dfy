/**
 * Piglet's `UnityPathUtil`: separator normalisation, conversion between
 * absolute paths and "Assets/..." project paths, and file URIs.
 * `Application.dataPath` (the absolute path of the project's Assets
 * folder, never empty) is passed in as `dataPath`.
 */
module UnityPathUtil {
  import opened Strings
  import GltfUtils

  /**
   * `NormalizePathSeparators`: the same two replacements as
   * `unifyPathSeparator`, then one trailing '/' (if any) is dropped.
   */
  function NormalizePathSeparators(path: string): (r: string)
    ensures '\\' !in r
    ensures |r| <= |path|
    ensures var u := GltfUtils.UnifyPathSeparator(path);
      if EndsWith(u, "/") then r + "/" == u else r == u
  {
    var result := ReplaceAll(ReplaceAll(path, "\\\\", "/"), "\\", "/");
    assert result == GltfUtils.UnifyPathSeparator(path);
    if EndsWith(result, "/") then result[..|result| - 1] else result
  }

  /** Only one trailing '/' goes, so normalising twice can differ from once. */
  lemma NormalizeNotIdempotent()
    ensures NormalizePathSeparators("a//") == "a/"
    ensures NormalizePathSeparators("a/") == "a"
  {
    assert '\\' !in "a//" && '\\' !in "a/";
    GltfUtils.UnifyPathSeparatorNoBackslash("a//");
    GltfUtils.UnifyPathSeparatorNoBackslash("a/");
  }

  /** A path without backslashes or a trailing '/' is already normal. */
  lemma NormalizeClean(path: string)
    requires '\\' !in path && !EndsWith(path, "/")
    ensures NormalizePathSeparators(path) == path
  {
    GltfUtils.UnifyPathSeparatorNoBackslash(path);
  }

  /** `GetProjectPath`: every occurrence of the data path becomes "Assets". */
  function GetProjectPath(dataPath: string, absolutePath: string): string
    requires |dataPath| > 0
  {
    NormalizePathSeparators(ReplaceAll(absolutePath, dataPath, "Assets"))
  }

  /** `GetAbsolutePath`: every "Assets" becomes the data path. */
  function GetAbsolutePath(dataPath: string, projectPath: string): string {
    NormalizePathSeparators(ReplaceAll(projectPath, "Assets", dataPath))
  }

  /** `GetFileURI`: the "file://" scheme prefix on the normalised path. */
  function GetFileURI(absolutePath: string): (r: string)
    ensures StartsWith(r, "file://")
    ensures '\\' !in r
  {
    "file://" + NormalizePathSeparators(absolutePath)
  }

  /** The URI's path part is exactly the normalised path. */
  lemma GetFileURIPath(absolutePath: string)
    ensures GetFileURI(absolutePath)[|"file://"|..] == NormalizePathSeparators(absolutePath)
  {
  }

  /** A path outside the data folder is only normalised. */
  lemma GetProjectPathOutside(dataPath: string, absolutePath: string)
    requires |dataPath| > 0 && !Contains(absolutePath, dataPath)
    ensures GetProjectPath(dataPath, absolutePath) == NormalizePathSeparators(absolutePath)
  {
    ReplaceAllAbsent(absolutePath, dataPath, "Assets");
  }

  /** A path without "Assets" is only normalised. */
  lemma GetAbsolutePathOutside(dataPath: string, projectPath: string)
    requires !Contains(projectPath, "Assets")
    ensures GetAbsolutePath(dataPath, projectPath) == NormalizePathSeparators(projectPath)
  {
    ReplaceAllAbsent(projectPath, "Assets", dataPath);
  }

  /**
   * A clean path under the data folder maps to "Assets" + the rest and back:
   * `GetAbsolutePath(GetProjectPath(p)) == p`, provided the rest mentions
   * neither the data path nor "Assets".
   */
  lemma ProjectPathRoundTrip(dataPath: string, rest: string)
    requires |dataPath| > 0 && '\\' !in dataPath && !EndsWith(dataPath, "/")
    requires '\\' !in rest && !EndsWith(rest, "/")
    requires !Contains(rest, dataPath) && !Contains(rest, "Assets")
    ensures GetProjectPath(dataPath, dataPath + rest) == "Assets" + rest
    ensures GetAbsolutePath(dataPath, "Assets" + rest) == dataPath + rest
  {
    ReplaceAllPrefix(dataPath, rest, "Assets");
    ReplaceAllAbsent(rest, dataPath, "Assets");
    EndsWithConcat("Assets", rest, "/");
    NormalizeClean("Assets" + rest);
    ReplaceAllPrefix("Assets", rest, dataPath);
    ReplaceAllAbsent(rest, "Assets", dataPath);
    EndsWithConcat(dataPath, rest, "/");
    NormalizeClean(dataPath + rest);
  }

  /** A concatenation ends with a one-character suffix iff its last non-empty part does. */
  lemma EndsWithConcat(a: string, b: string, c: string)
    requires |c| == 1
    ensures EndsWith(a + b, c) == if |b| == 0 then EndsWith(a, c) else EndsWith(b, c)
  {
    if |b| > 0 {
      assert (a + b)[|a + b| - 1..] == b[|b| - 1..];
    } else {
      assert a + b == a;
    }
  }
}
