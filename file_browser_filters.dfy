/**
 * The `ExtensionFilter` record of the standalone file browser and the
 * filter strings its platform shims hand to the native dialogs.
 *
 * The Linux and iOS shims encode a filter list as
 * "Name;ext,ext|Name;ext|..."; the WebGL shim as ".ext, .ext, ...".
 */
module FileBrowserFilters {
  import opened Strings

  /** `ExtensionFilter`: a display name and its extensions. */
  datatype ExtensionFilter = ExtensionFilter(name: string, extensions: seq<string>)

  /** The exceptions the builders can raise. */
  datatype FilterError =
    | ArgumentOutOfRange  // `String.Remove(-1)`
    | IndexOutOfRange     // `format[0]` on an empty extension

  /** One filter's part: the name, then ';' and the extensions joined by ',' when it has any. */
  function Chunk(f: ExtensionFilter): string {
    if |f.extensions| == 0 then f.name else f.name + ";" + Join(f.extensions, ",")
  }

  function Chunks(filters: seq<ExtensionFilter>): (r: seq<string>)
    ensures |r| == |filters|
  {
    seq(|filters|, i requires 0 <= i < |filters| => Chunk(filters[i]))
  }

  /** The Linux/iOS encoding: the filters' chunks, in order, separated by '|'. */
  function DelimitedFilter(filters: seq<ExtensionFilter>): string {
    Join(Chunks(filters), "|")
  }

  /** Every filter's chunk followed by '|': what the Linux/iOS loop has built before its final `Remove`. */
  function Terminated(filters: seq<ExtensionFilter>): (r: string)
    ensures |r| == 0 <==> |filters| == 0
  {
    if |filters| == 0 then ""
    else Terminated(filters[..|filters| - 1]) + Chunk(filters[|filters| - 1]) + "|"
  }

  /** Every extension followed by ',': what the inner loop appends. */
  function Suffixed(exts: seq<string>): string {
    if |exts| == 0 then "" else Suffixed(exts[..|exts| - 1]) + exts[|exts| - 1] + ","
  }

  lemma {:induction false} SuffixedIsJoin(exts: seq<string>)
    requires |exts| > 0
    ensures Suffixed(exts) == Join(exts, ",") + ","
    decreases |exts|
  {
    var n := |exts|;
    if n > 1 {
      SuffixedIsJoin(exts[..n - 1]);
    }
  }

  /** Dropping the last character after the inner loop leaves exactly the filter's chunk. */
  lemma DropLastGivesChunk(before: string, f: ExtensionFilter)
    ensures var built := before + f.name + ";" + Suffixed(f.extensions);
      |built| > 0 && built[..|built| - 1] == before + Chunk(f)
  {
    var built := before + f.name + ";" + Suffixed(f.extensions);
    if |f.extensions| == 0 {
      assert built == (before + f.name) + ";";
    } else {
      SuffixedIsJoin(f.extensions);
      assert built == (before + Chunk(f)) + ",";
    }
  }

  /** One more filter appends its chunk and '|'. */
  lemma TerminatedSnoc(filters: seq<ExtensionFilter>, i: nat)
    requires i < |filters|
    ensures Terminated(filters[..i + 1]) == Terminated(filters[..i]) + Chunk(filters[i]) + "|"
  {
    assert filters[..i + 1][..i] == filters[..i];
  }

  /**
   * The body of the Linux/iOS outer loop for one filter: append the name
   * and ';', every extension and ',', drop the last character, append '|'.
   */
  method AppendChunk(filterString: string, filter: ExtensionFilter) returns (r: string)
    ensures r == filterString + Chunk(filter) + "|"
  {
    r := filterString + filter.name + ";";
    for k := 0 to |filter.extensions|
      invariant r == filterString + filter.name + ";" + Suffixed(filter.extensions[..k])
    {
      assert filter.extensions[..k + 1][..k] == filter.extensions[..k];
      r := r + filter.extensions[k] + ",";
    }
    assert filter.extensions[..|filter.extensions|] == filter.extensions;
    DropLastGivesChunk(filterString, filter);
    r := r[..|r| - 1];
    r := r + "|";
  }

  lemma {:induction false} TerminatedIsDelimited(filters: seq<ExtensionFilter>)
    requires |filters| > 0
    ensures Terminated(filters) == DelimitedFilter(filters) + "|"
    decreases |filters|
  {
    var n := |filters|;
    var front := filters[..n - 1];
    assert Chunks(filters) == Chunks(front) + [Chunk(filters[n - 1])];
    if n > 1 {
      TerminatedIsDelimited(front);
      JoinSnoc(Chunks(front), "|", Chunk(filters[n - 1]));
    }
  }

  /** Reads a '|'/';'/','-delimited filter string back into filters. */
  function ParseDelimitedFilter(s: string): seq<ExtensionFilter> {
    var chunks := Split(s, '|');
    seq(|chunks|, i requires 0 <= i < |chunks| => ParseChunk(chunks[i]))
  }

  function ParseChunk(chunk: string): ExtensionFilter {
    var k := IndexOf(chunk, ';');
    if k == |chunk| then ExtensionFilter(chunk, [])
    else ExtensionFilter(chunk[..k], Split(chunk[k + 1..], ','))
  }

  /** Names and extensions that do not contain the encoding's delimiters. */
  predicate WellFormed(f: ExtensionFilter) {
    '|' !in f.name && ';' !in f.name &&
    forall e :: e in f.extensions ==> '|' !in e && ';' !in e && ',' !in e
  }

  lemma ChunkRoundTrip(f: ExtensionFilter)
    requires WellFormed(f)
    ensures '|' !in Chunk(f)
    ensures ParseChunk(Chunk(f)) == f
  {
    var c := Chunk(f);
    if |f.extensions| == 0 {
      assert IndexOf(c, ';') == |c|;
    } else {
      var body := Join(f.extensions, ",");
      forall i | 0 <= i < |f.extensions|
        ensures ',' !in f.extensions[i] && '|' !in f.extensions[i] && ';' !in f.extensions[i]
      {
        assert f.extensions[i] in f.extensions;
      }
      NoCharInJoin(f.extensions, ",", '|');
      NoCharInJoin(f.extensions, ",", ';');
      assert c == f.name + [';'] + body;
      IndexOfSplit(f.name, ';', body);
      assert c[..|f.name|] == f.name && c[|f.name| + 1..] == body;
      SplitJoin(f.extensions, ',');
      assert "," == [','];
    }
  }

  /** A character absent from every item and from the separator is absent from the join. */
  lemma {:induction false} NoCharInJoin(items: seq<string>, sep: string, c: char)
    requires c !in sep
    requires forall i :: 0 <= i < |items| ==> c !in items[i]
    ensures c !in Join(items, sep)
    decreases |items|
  {
    if |items| > 1 {
      NoCharInJoin(items[..|items| - 1], sep, c);
    }
  }

  /**
   * For non-empty lists of well-formed filters the Linux/iOS encoding
   * loses nothing: parsing it gives back every filter, in order.
   */
  lemma DelimitedFilterRoundTrip(filters: seq<ExtensionFilter>)
    requires |filters| > 0
    requires forall i :: 0 <= i < |filters| ==> WellFormed(filters[i])
    ensures ParseDelimitedFilter(DelimitedFilter(filters)) == filters
  {
    var cs := Chunks(filters);
    forall i | 0 <= i < |cs|
      ensures '|' !in cs[i] && ParseChunk(cs[i]) == filters[i]
    {
      ChunkRoundTrip(filters[i]);
    }
    assert "|" == ['|'];
    SplitJoin(cs, '|');
  }

  /** `format[0] == '.' ? format.Substring(1) : format`: one leading '.' is dropped. */
  function StripDot(ext: string): string
    requires |ext| > 0
  {
    if ext[0] == '.' then ext[1..] else ext
  }

  /** The WebGL items: every extension of every filter, in order, as "." + the extension without its dot. */
  function WebGlItems(filters: seq<ExtensionFilter>): seq<string>
    requires NoEmptyExtension(filters)
  {
    if |filters| == 0 then []
    else WebGlItems(filters[..|filters| - 1]) + DotItems(filters[|filters| - 1].extensions)
  }

  function DotItems(exts: seq<string>): (r: seq<string>)
    requires NonEmptyAll(exts)
    ensures |r| == |exts|
    ensures forall i :: 0 <= i < |r| ==> r[i] == "." + StripDot(exts[i])
  {
    seq(|exts|, i requires 0 <= i < |exts| => "." + StripDot(exts[i]))
  }

  /** No extension of any filter is the empty string. */
  predicate NoEmptyExtension(filters: seq<ExtensionFilter>) {
    forall i :: 0 <= i < |filters| ==> NonEmptyAll(filters[i].extensions)
  }

  predicate NonEmptyAll(exts: seq<string>) {
    forall e :: e in exts ==> |e| > 0
  }

  /** The WebGL encoding: the items separated by ", ". */
  function WebGlFilter(filters: seq<ExtensionFilter>): string
    requires NoEmptyExtension(filters)
  {
    Join(WebGlItems(filters), ", ")
  }

  /** "png" and ".png" give the same item. */
  lemma StripDotUnifies(ext: string)
    requires |ext| > 0 && ext[0] != '.'
    ensures StripDot("." + ext) == StripDot(ext)
  {
  }

  /** Every WebGL item starts with exactly the one '.' the builder adds (unless the extension had two). */
  lemma {:induction false} WebGlItemsDotted(filters: seq<ExtensionFilter>, j: nat)
    requires NoEmptyExtension(filters)
    requires j < |WebGlItems(filters)|
    ensures |WebGlItems(filters)[j]| > 0 && WebGlItems(filters)[j][0] == '.'
    decreases |filters|
  {
    var n := |filters|;
    var front := WebGlItems(filters[..n - 1]);
    if j < |front| {
      WebGlItemsDotted(filters[..n - 1], j);
    }
  }

  /** The items count every extension of every filter once. */
  lemma {:induction false} WebGlItemsCount(filters: seq<ExtensionFilter>)
    requires NoEmptyExtension(filters)
    ensures |WebGlItems(filters)| == ExtensionCount(filters)
    decreases |filters|
  {
    if |filters| > 0 {
      WebGlItemsCount(filters[..|filters| - 1]);
    }
  }

  function ExtensionCount(filters: seq<ExtensionFilter>): nat {
    if |filters| == 0 then 0
    else ExtensionCount(filters[..|filters| - 1]) + |filters[|filters| - 1].extensions|
  }

  /** Filter names play no part in the WebGL encoding. */
  lemma {:induction false} WebGlIgnoresNames(filters: seq<ExtensionFilter>, renamed: seq<ExtensionFilter>)
    requires |filters| == |renamed|
    requires forall i :: 0 <= i < |filters| ==> filters[i].extensions == renamed[i].extensions
    requires NoEmptyExtension(filters)
    ensures NoEmptyExtension(renamed)
    ensures WebGlFilter(filters) == WebGlFilter(renamed)
    decreases |filters|
  {
    assert NoEmptyExtension(renamed) by {
      forall i | 0 <= i < |renamed|
        ensures NonEmptyAll(renamed[i].extensions)
      {
        assert NonEmptyAll(filters[i].extensions);
      }
    }
    ItemsIgnoreNames(filters, renamed);
  }

  lemma {:induction false} ItemsIgnoreNames(filters: seq<ExtensionFilter>, renamed: seq<ExtensionFilter>)
    requires |filters| == |renamed|
    requires forall i :: 0 <= i < |filters| ==> filters[i].extensions == renamed[i].extensions
    requires NoEmptyExtension(filters) && NoEmptyExtension(renamed)
    ensures WebGlItems(filters) == WebGlItems(renamed)
    decreases |filters|
  {
    var n := |filters|;
    if n > 0 {
      ItemsIgnoreNames(filters[..n - 1], renamed[..n - 1]);
    }
  }
}
