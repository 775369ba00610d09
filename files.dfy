/** The file entities of the library (`PitouFilePath`, `PitouFile`, its
    metadata and size) with their kind predicates, the path `ancestors`
    listing, path equality and the path hash. */
module Files {
  import opened Prim

  /** `std::path::MAIN_SEPARATOR` on the Unix targets this model assumes. */
  const MainSeparator: char := '/'

  datatype PitouFileKind = Directory | File | Link

  /** A `chrono::NaiveDateTime`, kept as an opaque instant. */
  datatype PitouDateTime = PitouDateTime(datetime: int)

  datatype PitouFileSize = PitouFileSize(bytes: U64)

  datatype PitouFileMetadata = PitouFileMetadata(
    modified: PitouDateTime,
    accessed: PitouDateTime,
    created: PitouDateTime,
    size: PitouFileSize,
    kind: PitouFileKind)

  /** A wrapper around a `PathBuf`, held as its (Unicode) string. */
  datatype PitouFilePath = PitouFilePath(path: string)

  /** An entry: its path and best-effort metadata (`None` when stat failed). */
  datatype PitouFile = PitouFile(path: PitouFilePath, metadata: Option<PitouFileMetadata>)

  // ---------------------------------------------------------------------
  // Kind predicates

  predicate IsDir(f: PitouFile)
  {
    match f.metadata
    case None => false
    case Some(m) => m.kind == Directory
  }

  predicate IsLink(f: PitouFile)
  {
    match f.metadata
    case None => false
    case Some(m) => m.kind == Link
  }

  predicate IsFile(f: PitouFile)
  {
    match f.metadata
    case None => false
    case Some(m) => m.kind == File
  }

  /** Without metadata no kind holds; with metadata exactly the recorded one does. */
  lemma KindPredicates(f: PitouFile)
    ensures f.metadata.None? ==> !IsDir(f) && !IsFile(f) && !IsLink(f)
    ensures f.metadata.Some? ==>
      && (IsDir(f) <==> f.metadata.value.kind == Directory)
      && (IsFile(f) <==> f.metadata.value.kind == File)
      && (IsLink(f) <==> f.metadata.value.kind == Link)
      && (IsDir(f) || IsFile(f) || IsLink(f))
    ensures !(IsDir(f) && IsFile(f)) && !(IsDir(f) && IsLink(f)) && !(IsFile(f) && IsLink(f))
  {
  }

  // ---------------------------------------------------------------------
  // Constructors and conversions

  /** `PitouFileSize::new`. */
  function NewFileSize(value: U64): PitouFileSize
  {
    PitouFileSize(value)
  }

  /** `From<u64> for PitouFileSize`. */
  function FileSizeFromU64(bytes: U64): PitouFileSize
  {
    PitouFileSize(bytes)
  }

  /** `From<PathBuf> for PitouFilePath`. */
  function FilePathFromPathBuf(path: string): PitouFilePath
  {
    PitouFilePath(path)
  }

  /** The constructors store their argument unchanged, so they are injective. */
  lemma ConversionsPreserve(v: U64, w: U64, p: string, q: string)
    ensures NewFileSize(v).bytes == v && FileSizeFromU64(v).bytes == v
    ensures FileSizeFromU64(v) == NewFileSize(v)
    ensures FilePathFromPathBuf(p).path == p
    ensures NewFileSize(v) == NewFileSize(w) ==> v == w
    ensures FilePathFromPathBuf(p) == FilePathFromPathBuf(q) ==> p == q
  {
  }

  // ---------------------------------------------------------------------
  // Path components and equality

  /** The length of the leading run of non-separator characters. */
  function SegmentLen(p: string): (n: nat)
    ensures n <= |p|
    ensures forall i :: 0 <= i < n ==> p[i] != MainSeparator
    ensures n < |p| ==> p[n] == MainSeparator
    ensures p != [] && p[0] != MainSeparator ==> n >= 1
  {
    if p == [] || p[0] == MainSeparator then 0 else 1 + SegmentLen(p[1..])
  }

  /** The non-empty separator-delimited pieces of a path, in order. */
  function Segments(p: string): (r: seq<string>)
    ensures forall i :: 0 <= i < |r| ==> r[i] != [] && MainSeparator !in r[i]
    decreases |p|
  {
    if p == [] then []
    else if p[0] == MainSeparator then Segments(p[1..])
    else
      var n := SegmentLen(p);
      assert MainSeparator !in p[..n] by {
        forall i | 0 <= i < n ensures p[..n][i] != MainSeparator { }
      }
      [p[..n]] + Segments(p[n..])
  }

  function DropCurDirs(s: seq<string>): (r: seq<string>)
    ensures forall x :: x in r ==> x in s && x != "."
  {
    if s == [] then []
    else if s[0] == "." then DropCurDirs(s[1..])
    else [s[0]] + DropCurDirs(s[1..])
  }

  /** `Path::components` on a Unix path: a root marker and the names, with
      repeated and trailing separators and interior `.` names dropped; a
      leading `.` of a relative path is kept. */
  datatype Components = Components(hasRoot: bool, names: seq<string>)

  function ComponentsOf(p: string): (c: Components)
    ensures forall i :: 0 <= i < |c.names| ==> c.names[i] != []
  {
    var root := |p| > 0 && p[0] == MainSeparator;
    var leadingCurDir := !root && |p| > 0 && p[0] == '.' && (|p| == 1 || p[1] == MainSeparator);
    var segs := Segments(p);
    var kept := DropCurDirs(segs);
    assert forall i :: 0 <= i < |kept| ==> kept[i] in segs;
    Components(root, (if leadingCurDir then ["."] else []) + kept)
  }

  /** The derived `PartialEq for PitouFilePath`, which compares the `PathBuf`s,
      and Rust compares paths component by component. */
  predicate PathEq(a: PitouFilePath, b: PitouFilePath)
  {
    ComponentsOf(a.path) == ComponentsOf(b.path)
  }

  /** The bytes `Hash for PitouFilePath` feeds to the hasher: the raw encoded
      path, without any normalisation. */
  function PathHashBytes(p: PitouFilePath): seq<Byte>
  {
    Utf8(p.path)
  }

  /** `PartialEq for PitouFile`: equal paths, metadata ignored. */
  predicate FileEq(a: PitouFile, b: PitouFile)
  {
    PathEq(a.path, b.path)
  }

  /** Path equality and the file equality built on it are equivalence
      relations, and file equality does not look at metadata. */
  lemma FileEqIsEquivalence(a: PitouFile, b: PitouFile, c: PitouFile, m: Option<PitouFileMetadata>)
    ensures FileEq(a, a)
    ensures FileEq(a, b) ==> FileEq(b, a)
    ensures FileEq(a, b) && FileEq(b, c) ==> FileEq(a, c)
    ensures FileEq(a, b) <==> FileEq(a.(metadata := m), b)
    ensures a.path == b.path ==> FileEq(a, b)
  {
  }

  /** Equal paths in the byte sense hash alike: the hash depends only on the path text. */
  lemma PathHashDependsOnlyOnText(a: PitouFilePath, b: PitouFilePath)
    ensures a.path == b.path ==> PathHashBytes(a) == PathHashBytes(b)
    ensures IsAscii(a.path) ==> PathHashBytes(a) == seq(|a.path|, i requires 0 <= i < |a.path| => a.path[i] as int)
  {
    if IsAscii(a.path) {
      Utf8OfAscii(a.path);
    }
  }

  /** As written, equal paths need not hash alike: `a/b` and `a/b/` are the
      same path to Rust but their raw bytes differ. */
  lemma PathHashDisagreesWithEq()
    ensures PathEq(PitouFilePath("a/b"), PitouFilePath("a/b/"))
    ensures PathHashBytes(PitouFilePath("a/b")) != PathHashBytes(PitouFilePath("a/b/"))
  {
    assert Segments("a/b/") == ["a", "b"] by {
      assert Segments("b/") == ["b"] by {
        assert "b/"[1..] == "/";
        assert "b/"[1..][1..] == [];
        assert SegmentLen("b/") == 1;
        assert "b/"[..1] == "b";
        assert Segments("/") == [];
      }
      assert "a/b/"[..1] == "a";
      assert "a/b/"[1..] == "/b/";
      assert Segments("/b/") == Segments("b/");
    }
    assert Segments("a/b") == ["a", "b"] by {
      assert Segments("b") == ["b"] by {
        assert "b"[1..] == [];
        assert SegmentLen("b") == 1;
        assert "b"[..1] == "b";
      }
      assert "a/b"[..1] == "a";
      assert "a/b"[1..] == "/b";
      assert Segments("/b") == Segments("b");
    }
    calc {
      |PathHashBytes(PitouFilePath("a/b"))|;
      { Utf8OfAscii("a/b"); }
      3;
    }
    Utf8OfAscii("a/b/");
  }

  /** The corrected hash key: the components, as the standard library's own
      path hash does. */
  function PathHashKey(p: PitouFilePath): Components
  {
    ComponentsOf(p.path)
  }

  /** With the component key, equal paths always hash alike. */
  lemma PathHashKeyRespectsEq(a: PitouFilePath, b: PitouFilePath)
    ensures PathEq(a, b) <==> PathHashKey(a) == PathHashKey(b)
  {
  }

  /** `file_name()` of a path: its last component when that is a name, else
      the empty string (the `unwrap_or_default` of `PitouFilePath::name`). */
  function FileName(p: PitouFilePath): (r: string)
    ensures var names := ComponentsOf(p.path).names;
      r != [] <==> names != [] && names[|names| - 1] != "." && names[|names| - 1] != ".."
    ensures var names := ComponentsOf(p.path).names;
      r != [] ==> r == names[|names| - 1]
  {
    var names := ComponentsOf(p.path).names;
    if names != [] && names[|names| - 1] != "." && names[|names| - 1] != ".." then names[|names| - 1] else ""
  }

  /** A separator right after a path's leading run of non-separators ends
      that run. */
  lemma {:induction false} SegmentLenAppend(s: string, t: string)
    ensures SegmentLen(s + [MainSeparator] + t) == SegmentLen(s)
  {
    if s != [] && s[0] != MainSeparator {
      assert (s + [MainSeparator] + t)[1..] == s[1..] + [MainSeparator] + t;
      SegmentLenAppend(s[1..], t);
    }
  }

  /** Joining two texts with a separator joins their segments. */
  lemma {:induction false} SegmentsAppend(s: string, t: string)
    ensures Segments(s + [MainSeparator] + t) == Segments(s) + Segments(t)
    decreases |s|
  {
    var u := s + [MainSeparator] + t;
    if s == [] {
      assert u == [MainSeparator] + t && u[1..] == t;
    } else if s[0] == MainSeparator {
      assert u[1..] == s[1..] + [MainSeparator] + t;
      SegmentsAppend(s[1..], t);
    } else {
      var n := SegmentLen(s);
      SegmentLenAppend(s, t);
      assert u[..n] == s[..n];
      assert u[n..] == s[n..] + [MainSeparator] + t;
      SegmentsAppend(s[n..], t);
    }
  }

  /** A trailing separator changes neither the components nor the file name
      of a non-empty path, so `p` and `p/` are the same path. */
  lemma TrailingSeparatorIgnored(p: string)
    requires p != []
    ensures ComponentsOf(p + [MainSeparator]) == ComponentsOf(p)
    ensures FileName(PitouFilePath(p + [MainSeparator])) == FileName(PitouFilePath(p))
    ensures PathEq(PitouFilePath(p + [MainSeparator]), PitouFilePath(p))
  {
    SegmentsAppend(p, []);
    assert p + [MainSeparator] + [] == p + [MainSeparator];
    assert Segments(p) + Segments([]) == Segments(p);
    assert (p + [MainSeparator])[0] == p[0];
    if |p| > 1 {
      assert (p + [MainSeparator])[1] == p[1];
    }
  }

  // ---------------------------------------------------------------------
  // Ancestors

  /** The list `ancestors` builds from what `Path::ancestors` yields (the path
      itself, then each parent in turn): it stops at the first empty ancestor
      and puts each one in front, so the outermost comes first. */
  function AncestorList(anc: seq<string>): seq<PitouFilePath>
  {
    if anc == [] || anc[0] == [] then [] else AncestorList(anc[1..]) + [PitouFilePath(anc[0])]
  }

  lemma {:induction false} AncestorListStep(anc: seq<string>, i: nat)
    requires i < |anc|
    requires forall k :: 0 <= k <= i ==> anc[k] != []
    ensures AncestorList(anc[..i + 1]) == [PitouFilePath(anc[i])] + AncestorList(anc[..i])
  {
    if i > 0 {
      assert anc[..i + 1][1..] == anc[1..][..i];
      assert anc[..i][1..] == anc[1..][..i - 1];
      AncestorListStep(anc[1..], i - 1);
    } else {
      assert anc[..1][1..] == [];
    }
  }

  lemma {:induction false} AncestorListStops(anc: seq<string>, i: nat)
    requires i <= |anc|
    requires i == |anc| || anc[i] == []
    requires forall k :: 0 <= k < i ==> anc[k] != []
    ensures AncestorList(anc) == AncestorList(anc[..i])
  {
    if i > 0 {
      assert anc[..i][1..] == anc[1..][..i - 1];
      AncestorListStops(anc[1..], i - 1);
    }
  }

  /** `PitouFilePath::ancestors`; `stdAncestors` stands for the standard
      library's `Path::ancestors`. */
  method Ancestors(p: PitouFilePath, stdAncestors: string -> seq<string>) returns (ll: seq<PitouFilePath>)
    ensures ll == AncestorList(stdAncestors(p.path))
  {
    var anc := stdAncestors(p.path);
    ll := [];
    var i := 0;
    while i < |anc|
      invariant 0 <= i <= |anc|
      invariant forall k :: 0 <= k < i ==> anc[k] != []
      invariant ll == AncestorList(anc[..i])
    {
      if |anc[i]| == 0 {
        break;
      }
      AncestorListStep(anc, i);
      ll := [PitouFilePath(anc[i])] + ll;
      i := i + 1;
    }
    AncestorListStops(anc, i);
  }

  /** No listed ancestor is empty, and when the first yielded ancestor (the
      path itself) is non-empty the list ends with it. */
  lemma {:induction false} AncestorsShape(anc: seq<string>)
    ensures forall k :: 0 <= k < |AncestorList(anc)| ==> AncestorList(anc)[k].path != []
    ensures |AncestorList(anc)| <= |anc|
    ensures anc != [] && anc[0] != [] ==>
      AncestorList(anc) != [] && AncestorList(anc)[|AncestorList(anc)| - 1] == PitouFilePath(anc[0])
  {
    if anc != [] && anc[0] != [] {
      AncestorsShape(anc[1..]);
    }
  }

  /** The relative path whose names are `c`, joined by the separator. */
  function JoinPath(c: seq<string>): string
  {
    if c == [] then []
    else if |c| == 1 then c[0]
    else JoinPath(c[..|c| - 1]) + [MainSeparator] + c[|c| - 1]
  }

  /** Names of a relative path that `Path::components` keeps one for one:
      non-empty, without a separator, and `.` only in first place (an
      interior `.` is not a component, so `Path::parent` skips it). */
  predicate ValidNames(c: seq<string>)
  {
    forall i :: 0 <= i < |c| ==> c[i] != [] && MainSeparator !in c[i] && (i > 0 ==> c[i] != ".")
  }

  /** What `Path::ancestors` yields for the relative path `JoinPath(c)` whose
      names are valid: the path, then each parent, down to the empty path. */
  function StdAncestorsOfRelative(c: seq<string>): seq<string>
  {
    seq(|c| + 1, i requires 0 <= i <= |c| => JoinPath(c[..|c| - i]))
  }

  /** Over relative paths, `ancestors` is the increasing sequence of
      non-empty prefixes of the name list, ending with the path itself. */
  lemma {:induction false} AncestorsOfRelative(c: seq<string>)
    requires ValidNames(c)
    ensures AncestorList(StdAncestorsOfRelative(c))
         == seq(|c|, k requires 0 <= k < |c| => PitouFilePath(JoinPath(c[..k + 1])))
  {
    var std := StdAncestorsOfRelative(c);
    if c == [] {
      assert c[..0] == [];
      assert std[0] == JoinPath(c[..0]) == [];
    } else {
      var c' := c[..|c| - 1];
      assert ValidNames(c');
      assert std[0] == JoinPath(c) by { assert c[..|c|] == c; }
      assert JoinPath(c) != [];
      assert std[1..] == StdAncestorsOfRelative(c') by {
        forall i | 0 <= i < |c'| + 1
          ensures std[1..][i] == StdAncestorsOfRelative(c')[i]
        {
          assert c'[..|c'| - i] == c[..|c| - 1 - i];
        }
      }
      AncestorsOfRelative(c');
      var want := seq(|c|, k requires 0 <= k < |c| => PitouFilePath(JoinPath(c[..k + 1])));
      var got' := seq(|c'|, k requires 0 <= k < |c'| => PitouFilePath(JoinPath(c'[..k + 1])));
      assert want == got' + [PitouFilePath(JoinPath(c))] by {
        forall k | 0 <= k < |c'| ensures want[k] == got'[k] {
          assert c'[..k + 1] == c[..k + 1];
        }
        assert c[..|c|] == c;
      }
    }
  }
}
