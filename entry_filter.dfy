/** The per-search variables every traversal task carries and the rule that
    decides whether one directory entry is reported (`SearchVariables`). The
    backend revision and the older `search::ops` revision have the same
    conversion and the same rule. */
module EntryFilter {
  import opened Prim
  import opened Files
  import opened Pattern

  datatype SearchVariables = SearchVariables(
    filter: SearchFilter,
    caseSensitive: bool,
    depth: U8,
    searchType: SearchType,
    skipErrors: bool)

  /** `From<SearchOptions> for (SearchVariables, PathBuf)`: keeps the filter,
      case flag, depth, pattern and error flag; drops `hardware_accelerate`
      and `max_finds`. */
  function FromSearchOptions(o: SearchOptions): (SearchVariables, string)
  {
    (SearchVariables(o.filter, o.caseSensitive, o.depth, o.searchType, o.skipErrors), o.searchDir.path)
  }

  /** The conversion keeps every field it copies and forgets the two it
      drops: options that differ only in those convert alike. */
  lemma ConversionDropsOnlyTwoFields(o: SearchOptions, h: bool, m: Usize)
    ensures FromSearchOptions(o) == FromSearchOptions(o.(hardwareAccelerate := h, maxFinds := m))
    ensures var (v, dir) := FromSearchOptions(o);
      && v.filter == o.filter && v.caseSensitive == o.caseSensitive && v.depth == o.depth
      && v.searchType == o.searchType && v.skipErrors == o.skipErrors && dir == o.searchDir.path
  {
  }

  /** The kind half of `include`. */
  predicate KindAllowed(f: SearchFilter, file: PitouFile)
  {
    (IsFile(file) && f.files) || (IsDir(file) && f.dirs) || (IsLink(file) && f.links)
  }

  /** `SearchVariables::include`: the entry's kind is enabled and its name matches. */
  predicate Include(v: SearchVariables, file: PitouFile)
  {
    KindAllowed(v.filter, file) && Matches(v.searchType, FileName(file.path), v.caseSensitive)
  }

  /** An entry is included exactly when it has metadata, the filter enables
      its recorded kind, and its name matches the pattern; so an entry
      without metadata never is. */
  lemma IncludeIff(v: SearchVariables, file: PitouFile)
    ensures Include(v, file) <==>
      && file.metadata.Some?
      && KindEnabled(v.filter, file.metadata.value.kind)
      && Matches(v.searchType, FileName(file.path), v.caseSensitive)
    ensures file.metadata.None? ==> !Include(v, file)
  {
    KindPredicates(file);
  }

  /** `all_filtered` holds exactly when the filter lets no entry of any
      kind through, so the short-circuit in `search` loses nothing. */
  lemma {:induction false} AllFilteredIffNothingPasses(f: SearchFilter)
    ensures AllFiltered(f) <==> forall file :: !KindAllowed(f, file)
  {
    if !AllFiltered(f) {
      var t := PitouDateTime(0);
      var kind := if f.files then File else if f.dirs then Directory else Link;
      var file := PitouFile(PitouFilePath(""), Some(PitouFileMetadata(t, t, t, PitouFileSize(0), kind)));
      assert KindAllowed(f, file);
    }
  }

  /** When the short-circuit fires, no entry could have been included. */
  lemma AllFilteredIncludesNothing(v: SearchVariables)
    ensures AllFiltered(v.filter) ==> forall file :: !Include(v, file)
  {
    AllFilteredIffNothingPasses(v.filter);
  }
}
