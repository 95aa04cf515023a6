/** The filter-string builder of the WebGL standalone file browser. */
module StandaloneFileBrowserWebGL {
  import opened Wrappers
  import opened Strings
  import opened FileBrowserFilters

  /**
   * `GetFilterFromFileExtensionList`. A null array (`None`) gives "".
   * Otherwise every extension of every filter is appended as "." plus the
   * extension without one leading '.', with ", " before all but the first;
   * the first empty extension raises, since `format[0]` is out of range.
   */
  method GetFilterFromFileExtensionList(extensions: Option<seq<ExtensionFilter>>)
    returns (r: Result<string, FilterError>)
    ensures extensions.None? ==> r == Ok("")
    ensures extensions.Some? && !NoEmptyExtension(extensions.value) ==> r == Err(IndexOutOfRange)
    ensures extensions.Some? && NoEmptyExtension(extensions.value) ==> r == Ok(WebGlFilter(extensions.value))
  {
    var filterString := "";
    if extensions.Some? {
      var filters := extensions.value;
      for i := 0 to |filters|
        invariant NoEmptyExtension(filters[..i])
        invariant filterString == Join(WebGlItems(filters[..i]), ", ")
      {
        var extension := filters[i];
        var done := WebGlItems(filters[..i]);
        assert extension.extensions[..0] == [] && done + DotItems([]) == done;
        for k := 0 to |extension.extensions|
          invariant NonEmptyAll(extension.extensions[..k])
          invariant filterString == Join(done + DotItems(extension.extensions[..k]), ", ")
        {
          var format := extension.extensions[k];
          var before := filterString;
          if filterString != "" {
            filterString := filterString + ", ";
          }
          if |format| == 0 {
            assert format in filters[i].extensions;
            return Err(IndexOutOfRange);
          }
          filterString := filterString + "." + StripDot(format);
          AppendItem(filters[..i], extension.extensions, k, before);
        }
        assert extension.extensions[..|extension.extensions|] == extension.extensions;
        WebGlItemsSnoc(filters, i);
      }
      assert filters[..|filters|] == filters;
    }
    return Ok(filterString);
  }

  /** One step of the inner loop appends the next item with the right separator. */
  lemma AppendItem(filters: seq<ExtensionFilter>, exts: seq<string>, k: nat, built: string)
    requires NoEmptyExtension(filters)
    requires k < |exts| && NonEmptyAll(exts[..k]) && |exts[k]| > 0
    requires built == Join(WebGlItems(filters) + DotItems(exts[..k]), ", ")
    ensures NonEmptyAll(exts[..k + 1])
    ensures (if built != "" then built + ", " else built) + "." + StripDot(exts[k])
      == Join(WebGlItems(filters) + DotItems(exts[..k + 1]), ", ")
  {
    var items := WebGlItems(filters) + DotItems(exts[..k]);
    var item := "." + StripDot(exts[k]);
    DotItemsSnoc(exts, k);
    assert items + [item] == WebGlItems(filters) + DotItems(exts[..k + 1]);
    ItemsNonEmpty(filters, exts[..k]);
    JoinEmpty(items, ", ");
    if |items| > 0 {
      JoinSnoc(items, ", ", item);
    }
  }

  /** The next extension adds its item at the end. */
  lemma DotItemsSnoc(exts: seq<string>, k: nat)
    requires k < |exts| && NonEmptyAll(exts[..k]) && |exts[k]| > 0
    ensures NonEmptyAll(exts[..k + 1])
    ensures DotItems(exts[..k + 1]) == DotItems(exts[..k]) + ["." + StripDot(exts[k])]
  {
    assert exts[..k + 1] == exts[..k] + [exts[k]];
  }

  /** No item the builder has produced so far is empty. */
  lemma ItemsNonEmpty(filters: seq<ExtensionFilter>, exts: seq<string>)
    requires NoEmptyExtension(filters) && NonEmptyAll(exts)
    ensures var items := WebGlItems(filters) + DotItems(exts);
      forall j :: 0 <= j < |items| ==> |items[j]| > 0
  {
    forall j | 0 <= j < |WebGlItems(filters)|
      ensures |WebGlItems(filters)[j]| > 0
    {
      WebGlItemsDotted(filters, j);
    }
  }

  /** A finished filter adds its items after those of the filters before it. */
  lemma WebGlItemsSnoc(filters: seq<ExtensionFilter>, i: nat)
    requires i < |filters|
    requires NoEmptyExtension(filters[..i]) && NonEmptyAll(filters[i].extensions)
    ensures NoEmptyExtension(filters[..i + 1])
    ensures WebGlItems(filters[..i + 1]) == WebGlItems(filters[..i]) + DotItems(filters[i].extensions)
  {
    assert filters[..i + 1][..i] == filters[..i];
  }
}
