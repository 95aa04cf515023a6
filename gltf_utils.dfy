/**
 * Pure helpers of the UnityGLTF `GLTFUtils` class: asset-name cleaning,
 * path separator unification, handedness conversions, blend-shape names
 * and bone-weight normalisation.
 */
module GltfUtils {
  import opened Wrappers
  import opened Strings
  import opened UnityMath

  /**
   * The characters the regex `[^a-zA-Z0-9 -_.]` does NOT match: letters,
   * digits, '.', and the whole range ' '..'_' (the unescaped '-' in the
   * class makes ` -_` a range, U+0020..U+005F, which takes in '/', ':',
   * '"' and '\\' as well).
   */
  predicate RegexKeeps(c: char) {
    ('a' <= c <= 'z') || ('A' <= c <= 'Z') || ('0' <= c <= '9') || (' ' <= c <= '_') || c == '.'
  }

  /** `rgx.Replace(s, "")`: every character the class matches is deleted. */
  function RemoveDisallowed(s: string): (r: string)
    ensures |r| <= |s|
    ensures forall i :: 0 <= i < |r| ==> RegexKeeps(r[i])
    ensures forall c :: c in r ==> c in s
  {
    if |s| == 0 then ""
    else if RegexKeeps(s[0]) then [s[0]] + RemoveDisallowed(s[1..])
    else RemoveDisallowed(s[1..])
  }

  /** A string made only of kept characters passes the regex untouched. */
  lemma {:induction false} RemoveDisallowedKeepsClean(s: string)
    requires forall i :: 0 <= i < |s| ==> RegexKeeps(s[i])
    ensures RemoveDisallowed(s) == s
  {
    if |s| > 0 {
      RemoveDisallowedKeepsClean(s[1..]);
      assert [s[0]] + s[1..] == s;
    }
  }

  /**
   * `cleanName`: the regex deletion, then '/' and '\\' become ' ', ':'
   * becomes '_' and '"' is dropped.
   */
  function CleanName(s: string): string {
    ReplaceAll(ReplaceAll(ReplaceAll(ReplaceAll(RemoveDisallowed(s), "/", " "), "\\", " "), ":", "_"), "\"", "")
  }

  /** The character alphabet of a cleaned name. */
  predicate CleanChar(c: char) {
    RegexKeeps(c) && c != '/' && c != '\\' && c != ':' && c != '"'
  }

  /**
   * Every character of `CleanName(s)` is a letter, a digit, '.', or lies in
   * ' '..'_', and none of '/', '\\', ':', '"' survives.
   */
  lemma CleanNameAlphabet(s: string)
    ensures forall c :: c in CleanName(s) ==> CleanChar(c)
  {
    var s0 := RemoveDisallowed(s);
    var s1 := ReplaceAll(s0, "/", " ");
    var s2 := ReplaceAll(s1, "\\", " ");
    var s3 := ReplaceAll(s2, ":", "_");
    var s4 := ReplaceAll(s3, "\"", "");
    assert "/" == ['/'] && "\\" == ['\\'] && ":" == [':'] && "\"" == ['"'];
    ReplaceAllRemovesChar(s0, '/', " ");
    ReplaceAllRemovesChar(s1, '\\', " ");
    ReplaceAllRemovesChar(s2, ':', "_");
    ReplaceAllRemovesChar(s3, '"', "");
    forall c | c in s4
      ensures CleanChar(c)
    {
      ReplaceAllChars(s3, "\"", "", c);
      ReplaceAllChars(s2, ":", "_", c);
      if c in s2 {
        ReplaceAllChars(s1, "\\", " ", c);
        if c in s1 {
          ReplaceAllChars(s0, "/", " ", c);
        }
      }
    }
  }

  /** Cleaning never lengthens a name. */
  lemma CleanNameShrinks(s: string)
    ensures |CleanName(s)| <= |s|
  {
    var s0 := RemoveDisallowed(s);
    var s1 := ReplaceAll(s0, "/", " ");
    var s2 := ReplaceAll(s1, "\\", " ");
    var s3 := ReplaceAll(s2, ":", "_");
    ReplaceAllShrinks(s0, "/", " ");
    ReplaceAllShrinks(s1, "\\", " ");
    ReplaceAllShrinks(s2, ":", "_");
    ReplaceAllShrinks(s3, "\"", "");
  }

  /** Cleaning a cleaned name changes nothing. */
  lemma CleanNameIdempotent(s: string)
    ensures CleanName(CleanName(s)) == CleanName(s)
  {
    var t := CleanName(s);
    CleanNameAlphabet(s);
    assert forall i :: 0 <= i < |t| ==> t[i] in t;
    RemoveDisallowedKeepsClean(t);
    assert "/" == ['/'] && "\\" == ['\\'] && ":" == [':'] && "\"" == ['"'];
    ReplaceAllAbsentChar(t, '/', " ");
    ReplaceAllAbsentChar(t, '\\', " ");
    ReplaceAllAbsentChar(t, ':', "_");
    ReplaceAllAbsentChar(t, '"', "");
  }

  /** `unifyPathSeparator`: "\\\\" and then every remaining '\\' become '/'. */
  function UnifyPathSeparator(path: string): (r: string)
    ensures '\\' !in r
    ensures |r| <= |path|
  {
    var once := ReplaceAll(path, "\\\\", "/");
    assert "\\" == ['\\'];
    ReplaceAllRemovesChar(once, '\\', "/");
    ReplaceAllShrinks(path, "\\\\", "/");
    ReplaceAllShrinks(once, "\\", "/");
    ReplaceAll(once, "\\", "/")
  }

  /** A path without backslashes is already unified. */
  lemma UnifyPathSeparatorNoBackslash(path: string)
    requires '\\' !in path
    ensures UnifyPathSeparator(path) == path
  {
    AbsentCharNoMatch(path, "\\\\", '\\');
    ReplaceAllAbsent(path, "\\\\", "/");
    assert "\\" == ['\\'];
    ReplaceAllAbsentChar(path, '\\', "/");
  }

  /** `convertVector3LeftToRightHandedness`: z is negated, x and y kept. */
  function ConvertVector3(v: Vec3): (r: Vec3)
    ensures r.x == v.x && r.y == v.y && r.z == -v.z
  {
    v.(z := -v.z)
  }

  /** `convertVector4LeftToRightHandedness`: z and w are negated. */
  function ConvertVector4(v: Vec4): (r: Vec4)
    ensures r.x == v.x && r.y == v.y && r.z == -v.z && r.w == -v.w
  {
    v.(z := -v.z, w := -v.w)
  }

  /** `convertQuatLeftToRightHandedness`: w and z are negated. */
  function ConvertQuat(q: Quat): (r: Quat)
    ensures r.x == q.x && r.y == q.y && r.z == -q.z && r.w == -q.w
  {
    q.(w := -q.w, z := -q.z)
  }

  /** Each handedness conversion undoes itself. */
  lemma ConversionsAreInvolutions(v: Vec3, u: Vec4, q: Quat)
    ensures ConvertVector3(ConvertVector3(v)) == v
    ensures ConvertVector4(ConvertVector4(u)) == u
    ensures ConvertQuat(ConvertQuat(q)) == q
  {
  }

  /** `buildBlendShapeName`: "Target_" + mesh index + "_" + target index. */
  function BuildBlendShapeName(meshIndex: int, targetIndex: int): string {
    "Target_" + IntToString(meshIndex) + "_" + IntToString(targetIndex)
  }

  lemma IntToStringNoUnderscore(i: int)
    ensures '_' !in IntToString(i)
  {
    var s := IntToString(i);
    forall k | 0 <= k < |s|
      ensures s[k] != '_'
    {
      if k == 0 && i < 0 {
        assert s[0] == '-';
      } else {
        assert IsDigit(s[k]);
      }
    }
  }

  /** Distinct (mesh, target) index pairs give distinct blend-shape names. */
  lemma BuildBlendShapeNameInjective(m: int, t: int, m': int, t': int)
    requires BuildBlendShapeName(m, t) == BuildBlendShapeName(m', t')
    ensures m == m' && t == t'
  {
    var a, b := IntToString(m), IntToString(t);
    var a', b' := IntToString(m'), IntToString(t');
    var p := "Target_";
    assert p + a + "_" + b == p + (a + ['_'] + b);
    assert p + a' + "_" + b' == p + (a' + ['_'] + b');
    assert a + ['_'] + b == (p + a + "_" + b)[|p|..];
    assert a' + ['_'] + b' == (p + a' + "_" + b')[|p|..];
    IntToStringNoUnderscore(m);
    IntToStringNoUnderscore(m');
    SplitAtSeparator(a, b, a', b', '_');
    IntToStringInjective(m, m');
    IntToStringInjective(t, t');
  }

  /** `Vector4ToArray`: the components as a four-element array, x, y, z, w. */
  function Vector4ToArray(v: Vec4): (r: seq<real>)
    ensures |r| == 4
  {
    [v.x, v.y, v.z, v.w]
  }

  /** Reads a four-element array back as a vector. */
  function ArrayToVector4(a: seq<real>): Vec4
    requires |a| == 4
  {
    Vec4(a[0], a[1], a[2], a[3])
  }

  /** The array keeps every component in its place. */
  lemma Vector4ToArrayRoundTrip(v: Vec4, a: seq<real>)
    requires |a| == 4
    ensures ArrayToVector4(Vector4ToArray(v)) == v
    ensures Vector4ToArray(ArrayToVector4(a)) == a
  {
  }

  function SumSeq(a: seq<real>): real
    decreases |a|
  {
    if |a| == 0 then 0.0 else a[0] + SumSeq(a[1..])
  }

  lemma SumSeqVector4(v: Vec4)
    ensures SumSeq(Vector4ToArray(v)) == Vec4Sum(v)
  {
    var a := Vector4ToArray(v);
    var b, c, d := [v.y, v.z, v.w], [v.z, v.w], [v.w];
    assert a[1..] == b && b[1..] == c && c[1..] == d && d[1..] == [];
    assert SumSeq(d) == v.w;
    assert SumSeq(c) == v.z + v.w;
    assert SumSeq(b) == v.y + v.z + v.w;
  }

  lemma DivSum(x: real, y: real, z: real, w: real, s: real)
    requires s != 0.0
    ensures x / s + y / s + z / s + w / s == (x + y + z + w) / s
  {
  }

  /**
   * `normalizeBoneWeights`. Weights that sum to exactly 1 come back as they
   * are; otherwise each is divided by the sum. A zero sum makes the C# float
   * division produce NaN or infinities, modelled here as `None`.
   */
  function NormalizeBoneWeights(weights: Vec4): (r: Option<seq<real>>)
    ensures r.None? <==> Vec4Sum(weights) == 0.0
    ensures r.Some? ==> |r.value| == 4 && SumSeq(r.value) == 1.0
    ensures Vec4Sum(weights) == 1.0 ==> r == Some(Vector4ToArray(weights))
    ensures r.Some? ==> forall i :: 0 <= i < 4 ==>
      r.value[i] * Vec4Sum(weights) == Vector4ToArray(weights)[i]
  {
    var sum := Vec4Sum(weights);
    if sum != 1.0 then
      if sum == 0.0 then None
      else
        var n := Vec4Div(weights, sum);
        SumSeqVector4(n);
        DivSum(weights.x, weights.y, weights.z, weights.w, sum);
        Some(Vector4ToArray(n))
    else
      SumSeqVector4(weights);
      Some(Vector4ToArray(weights))
  }
}
