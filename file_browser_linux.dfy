/** The filter-string builder of the Linux standalone file browser. */
module StandaloneFileBrowserLinux {
  import opened Wrappers
  import opened Strings
  import opened FileBrowserFilters

  /**
   * `GetFilterFromFileExtensionList`. A null array (`None`) gives "". Each
   * filter appends its name and ';', each extension and ',', then drops the
   * last character and appends '|'; the final '|' is dropped at the end,
   * which raises for an empty array because `Remove(-1)` is out of range.
   */
  method GetFilterFromFileExtensionList(extensions: Option<seq<ExtensionFilter>>)
    returns (r: Result<string, FilterError>)
    ensures extensions.None? ==> r == Ok("")
    ensures extensions.Some? && |extensions.value| == 0 ==> r == Err(ArgumentOutOfRange)
    ensures extensions.Some? && |extensions.value| > 0 ==> r == Ok(DelimitedFilter(extensions.value))
  {
    if extensions.None? {
      return Ok("");
    }
    var filters := extensions.value;
    var filterString := "";
    for i := 0 to |filters|
      invariant filterString == Terminated(filters[..i])
    {
      filterString := AppendChunk(filterString, filters[i]);
      TerminatedSnoc(filters, i);
    }
    assert filters[..|filters|] == filters;
    if |filterString| == 0 {
      return Err(ArgumentOutOfRange);
    }
    TerminatedIsDelimited(filters);
    filterString := filterString[..|filterString| - 1];
    return Ok(filterString);
  }
}
