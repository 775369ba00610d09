/** `PitouFileWrapper`, the front end's hashable handle on a file: equal and
    hashed by the inner file's path. */
module FrontendExtra {
  import opened Prim
  import opened Files

  datatype PitouFileWrapper = PitouFileWrapper(file: PitouFile)

  /** `PartialEq for PitouFileWrapper`: the inner files are equal. */
  predicate WrapperEq(a: PitouFileWrapper, b: PitouFileWrapper)
  {
    FileEq(a.file, b.file)
  }

  /** `Hash for PitouFileWrapper`: the hash of the inner file's path. */
  function WrapperHash(w: PitouFileWrapper): seq<Byte>
  {
    PathHashBytes(w.file.path)
  }

  /** Two wrappers are equal exactly when their files' paths are equal, and
      the equality is an equivalence, as `impl Eq` claims. */
  lemma WrapperEqProperties(a: PitouFileWrapper, b: PitouFileWrapper, c: PitouFileWrapper)
    ensures WrapperEq(a, b) <==> PathEq(a.file.path, b.file.path)
    ensures WrapperEq(a, a)
    ensures WrapperEq(a, b) ==> WrapperEq(b, a)
    ensures WrapperEq(a, b) && WrapperEq(b, c) ==> WrapperEq(a, c)
  {
    FileEqIsEquivalence(a.file, b.file, c.file, a.file.metadata);
  }

  /** The hash looks only at the path text: metadata never changes it, and
      the same path text always gives the same hash. */
  lemma WrapperHashDependsOnlyOnPath(a: PitouFileWrapper, b: PitouFileWrapper, m: Option<PitouFileMetadata>)
    ensures WrapperHash(a) == WrapperHash(PitouFileWrapper(a.file.(metadata := m)))
    ensures a.file.path == b.file.path ==> WrapperHash(a) == WrapperHash(b)
  {
    PathHashDependsOnlyOnText(a.file.path, b.file.path);
  }

  /** As written, equal wrappers need not hash alike: `a/b` and `a/b/`. */
  lemma EqualWrappersMayHashApart()
    ensures var w1 := PitouFileWrapper(PitouFile(PitouFilePath("a/b"), None));
      var w2 := PitouFileWrapper(PitouFile(PitouFilePath("a/b/"), None));
      WrapperEq(w1, w2) && WrapperHash(w1) != WrapperHash(w2)
  {
    PathHashDisagreesWithEq();
  }

  /** The corrected hash: the inner path's components. */
  function ConsistentHash(w: PitouFileWrapper): Components
  {
    PathHashKey(w.file.path)
  }

  /** With the corrected hash, equal wrappers hash alike, and conversely. */
  lemma ConsistentHashRespectsEq(a: PitouFileWrapper, b: PitouFileWrapper)
    ensures WrapperEq(a, b) <==> ConsistentHash(a) == ConsistentHash(b)
  {
    PathHashKeyRespectsEq(a.file.path, b.file.path);
  }
}
