/** The front end's shared state: the set of selected items (`StaticData`),
    keyed by the `VWrapper` equality and hash, and the search results buffer
    of a tab (`TabCtx`). */
module Frontend {
  import opened Prim
  import opened Files

  // ---------------------------------------------------------------------
  // Selectable items

  datatype PitouDriveKind = HDD | SSD | Unknown

  datatype PitouDrive = PitouDrive(
    name: string,
    mountPoint: PitouFilePath,
    totalSpace: U64,
    freeSpace: U64,
    isRemovable: bool,
    kind: PitouDriveKind)

  /** A well-known folder (desktop, downloads, ...), seen only through its `o_name`. */
  datatype GeneralFolder = GeneralFolder(oName: string)

  datatype PitouTrashItemMetadata = PitouTrashItemMetadata(id: string, deleted: PitouDateTime)

  datatype PitouTrashItem = PitouTrashItem(originalPath: PitouFilePath, metadata: PitouTrashItemMetadata)

  /** Anything that can be selected in the front end. */
  datatype VWrapper =
    | Drive(drive: PitouDrive)
    | GenFolder(folder: GeneralFolder)
    | FirstAncestor(file: PitouFile)
    | FullPath(file: PitouFile)
    | TrashItem(item: PitouTrashItem)

  /** The derived `PartialEq for PitouDrive`: every field equal, the mount
      point as a path. */
  predicate DriveEq(a: PitouDrive, b: PitouDrive)
  {
    && a.name == b.name
    && PathEq(a.mountPoint, b.mountPoint)
    && a.totalSpace == b.totalSpace
    && a.freeSpace == b.freeSpace
    && a.isRemovable == b.isRemovable
    && a.kind == b.kind
  }

  /** `PartialEq for VWrapper`: same variant, and then drives equal, folder
      names equal, file names equal, paths equal, or original paths equal. */
  predicate WrapperEq(a: VWrapper, b: VWrapper)
  {
    match a
    case Drive(d1) => b.Drive? && DriveEq(d1, b.drive)
    case GenFolder(g1) => b.GenFolder? && g1.oName == b.folder.oName
    case FirstAncestor(a1) => b.FirstAncestor? && FileName(a1.path) == FileName(b.file.path)
    case FullPath(f1) => b.FullPath? && PathEq(f1.path, b.file.path)
    case TrashItem(t1) => b.TrashItem? && PathEq(t1.originalPath, b.item.originalPath)
  }

  /** The bytes `Hash for VWrapper` writes: the mount point, the folder name,
      the file name, the path, or the trash id. */
  function HashKey(w: VWrapper): seq<Byte>
  {
    match w
    case Drive(d) => Utf8(d.mountPoint.path)
    case GenFolder(g) => Utf8(g.oName)
    case FirstAncestor(f) => Utf8(FileName(f.path))
    case FullPath(f) => Utf8(f.path.path)
    case TrashItem(t) => Utf8(t.metadata.id)
  }

  /** The equality is an equivalence, as `impl Eq` claims, and never relates
      two different variants. */
  lemma WrapperEqIsEquivalence(a: VWrapper, b: VWrapper, c: VWrapper)
    ensures WrapperEq(a, a)
    ensures WrapperEq(a, b) ==> WrapperEq(b, a)
    ensures WrapperEq(a, b) && WrapperEq(b, c) ==> WrapperEq(a, c)
    ensures WrapperEq(a, b) ==>
      && a.Drive? == b.Drive? && a.GenFolder? == b.GenFolder?
      && a.FirstAncestor? == b.FirstAncestor? && a.FullPath? == b.FullPath?
      && a.TrashItem? == b.TrashItem?
  {
  }

  /** Where the hash agrees with the equality as written: always for folders
      and first ancestors (both compare and hash the same string), and for
      drives and full paths when the two paths are the same text. */
  lemma HashKeyRespectsEqWhereConsistent(a: VWrapper, b: VWrapper)
    requires WrapperEq(a, b)
    requires a.Drive? ==> a.drive.mountPoint == b.drive.mountPoint
    requires a.FullPath? ==> a.file.path == b.file.path
    requires !a.TrashItem?
    ensures HashKey(a) == HashKey(b)
  {
  }

  /** Two trash entries with the same original path and different ids. */
  function TrashPair(): (VWrapper, VWrapper)
  {
    var t := PitouDateTime(0);
    (TrashItem(PitouTrashItem(PitouFilePath("a"), PitouTrashItemMetadata("1", t))),
     TrashItem(PitouTrashItem(PitouFilePath("a"), PitouTrashItemMetadata("2", t))))
  }

  /** As written, equal trash items need not hash alike: equality looks at
      the original path and the hash at the id. */
  lemma TrashItemEqButHashDiffers()
    ensures WrapperEq(TrashPair().0, TrashPair().1)
    ensures HashKey(TrashPair().0) != HashKey(TrashPair().1)
  {
    assert "1"[0] == '1' && "1"[1..] == [];
    assert "2"[0] == '2' && "2"[1..] == [];
    assert EncodeChar('1') == [49] && EncodeChar('2') == [50];
    assert Utf8("1") == [49] && Utf8("2") == [50];
  }

  /** As written, equal full paths need not hash alike either: `a/b` and
      `a/b/` are equal paths with different bytes. */
  lemma FullPathEqButHashDiffers()
    ensures var f1 := FullPath(PitouFile(PitouFilePath("a/b"), None));
      var f2 := FullPath(PitouFile(PitouFilePath("a/b/"), None));
      WrapperEq(f1, f2) && HashKey(f1) != HashKey(f2)
  {
    PathHashDisagreesWithEq();
  }

  /** A hash key that agrees with the equality: components for every path,
      so the trash entry is keyed by its original path. */
  datatype WrapperKey = PathKey(components: Components) | NameKey(bytes: seq<Byte>)

  function ConsistentKey(w: VWrapper): WrapperKey
  {
    match w
    case Drive(d) => PathKey(ComponentsOf(d.mountPoint.path))
    case GenFolder(g) => NameKey(Utf8(g.oName))
    case FirstAncestor(f) => NameKey(Utf8(FileName(f.path)))
    case FullPath(f) => PathKey(ComponentsOf(f.path.path))
    case TrashItem(t) => PathKey(ComponentsOf(t.originalPath.path))
  }

  /** Equal wrappers always get the same corrected key. */
  lemma ConsistentKeyRespectsEq(a: VWrapper, b: VWrapper)
    ensures WrapperEq(a, b) ==> ConsistentKey(a) == ConsistentKey(b)
  {
  }

  // ---------------------------------------------------------------------
  // The selection set

  /** A `HashSet` lookup of `x` hits `y` when the keys agree and the
      elements are equal; distinct key bytes are taken to land in
      distinct buckets. */
  predicate Hit<K(==)>(key: VWrapper -> K, y: VWrapper, x: VWrapper)
  {
    key(y) == key(x) && WrapperEq(y, x)
  }

  /** `contains`: some element of the set is hit by `x`. */
  predicate Finds<K(==)>(key: VWrapper -> K, s: seq<VWrapper>, x: VWrapper)
  {
    exists y :: y in s && Hit(key, y, x)
  }

  /** The `HashSet` invariant: no element is hit by another. */
  predicate NoDup<K(==)>(key: VWrapper -> K, s: seq<VWrapper>)
  {
    forall i, j :: 0 <= i < j < |s| ==> !Hit(key, s[i], s[j])
  }

  /** `insert`: an element already present is kept and `x` dropped. */
  function Inserted<K(==)>(key: VWrapper -> K, s: seq<VWrapper>, x: VWrapper): seq<VWrapper>
  {
    if Finds(key, s, x) then s else s + [x]
  }

  /** `remove`: the elements hit by `x` leave, the rest stay in order. */
  function Without<K(==)>(key: VWrapper -> K, s: seq<VWrapper>, x: VWrapper): seq<VWrapper>
  {
    if s == [] then []
    else (if Hit(key, s[0], x) then [] else [s[0]]) + Without(key, s[1..], x)
  }

  lemma HitIsEquivalence<K>(key: VWrapper -> K, a: VWrapper, b: VWrapper, c: VWrapper)
    ensures Hit(key, a, a)
    ensures Hit(key, a, b) ==> Hit(key, b, a)
    ensures Hit(key, a, b) && Hit(key, b, c) ==> Hit(key, a, c)
  {
    WrapperEqIsEquivalence(a, b, c);
  }

  /** After `insert(x)`, `x` is found, the invariant still holds, nothing
      is lost, and an item is found exactly when it was found before or is
      hit by `x`. */
  lemma InsertedProperties<K>(key: VWrapper -> K, s: seq<VWrapper>, x: VWrapper)
    requires NoDup(key, s)
    ensures Finds(key, Inserted(key, s, x), x)
    ensures NoDup(key, Inserted(key, s, x))
    ensures forall y :: y in s ==> y in Inserted(key, s, x)
    ensures forall y :: Finds(key, Inserted(key, s, x), y) <==> Finds(key, s, y) || Hit(key, x, y)
  {
    var r := Inserted(key, s, x);
    HitIsEquivalence(key, x, x, x);
    assert x in r || Finds(key, s, x);
    forall y
      ensures Finds(key, r, y) <==> Finds(key, s, y) || Hit(key, x, y)
    {
      if Hit(key, x, y) && Finds(key, s, x) {
        var z :| z in s && Hit(key, z, x);
        HitIsEquivalence(key, z, x, y);
      }
      if Finds(key, r, y) && !Finds(key, s, y) {
        var z :| z in r && Hit(key, z, y);
        assert z == x;
      }
    }
    if !Finds(key, s, x) {
      forall i | 0 <= i < |s|
        ensures !Hit(key, s[i], x)
      {
        assert s[i] in s;
      }
    }
  }

  /** Membership after `remove(x)`: exactly the elements not hit by `x`. */
  lemma {:induction false} WithoutMembers<K>(key: VWrapper -> K, s: seq<VWrapper>, x: VWrapper)
    ensures forall y :: y in Without(key, s, x) <==> y in s && !Hit(key, y, x)
    ensures |Without(key, s, x)| <= |s|
  {
    if s != [] {
      WithoutMembers(key, s[1..], x);
      assert forall y :: y in s <==> y == s[0] || y in s[1..];
    }
  }

  /** `remove` keeps the invariant. */
  lemma {:induction false} WithoutNoDup<K>(key: VWrapper -> K, s: seq<VWrapper>, x: VWrapper)
    requires NoDup(key, s)
    ensures NoDup(key, Without(key, s, x))
  {
    if s != [] {
      var t := s[1..];
      assert NoDup(key, t) by {
        forall i, j | 0 <= i < j < |t| ensures !Hit(key, t[i], t[j]) {
          assert t[i] == s[i + 1] && t[j] == s[j + 1];
        }
      }
      WithoutNoDup(key, t, x);
      WithoutMembers(key, t, x);
      var w := Without(key, t, x);
      if !Hit(key, s[0], x) {
        var r := [s[0]] + w;
        forall i, j | 0 <= i < j < |r| ensures !Hit(key, r[i], r[j]) {
          if i == 0 {
            assert r[j] == w[j - 1] && w[j - 1] in t;
            var k :| 0 <= k < |t| && t[k] == r[j];
            assert s[k + 1] == r[j];
          } else {
            assert r[i] == w[i - 1] && r[j] == w[j - 1];
          }
        }
      }
    }
  }

  /** After `remove(x)` nothing hit by `x` is found, and every other lookup
      answers as before. */
  lemma WithoutFinds<K>(key: VWrapper -> K, s: seq<VWrapper>, x: VWrapper, y: VWrapper)
    ensures !Finds(key, Without(key, s, x), x)
    ensures Hit(key, y, x) ==> !Finds(key, Without(key, s, x), y)
    ensures !Hit(key, y, x) ==> (Finds(key, Without(key, s, x), y) <==> Finds(key, s, y))
  {
    WithoutMembers(key, s, x);
    var w := Without(key, s, x);
    if Hit(key, y, x) && Finds(key, w, y) {
      var z :| z in w && Hit(key, z, y);
      HitIsEquivalence(key, z, y, x);
    }
    if !Hit(key, y, x) && Finds(key, s, y) {
      var z :| z in s && Hit(key, z, y);
      if Hit(key, z, x) {
        HitIsEquivalence(key, y, z, x);
        HitIsEquivalence(key, z, y, x);
      }
      assert z in w;
    }
  }

  /** The discrepancy in the set: after selecting one trash item, an equal
      one is not reported selected, and selecting it too keeps both. */
  lemma TrashSelectionAsWritten()
    ensures var (t1, t2) := TrashPair();
      && WrapperEq(t1, t2)
      && !Finds(HashKey, Inserted(HashKey, [], t1), t2)
      && Inserted(HashKey, Inserted(HashKey, [], t1), t2) == [t1, t2]
  {
    var (t1, t2) := TrashPair();
    TrashItemEqButHashDiffers();
    assert Inserted(HashKey, [], t1) == [t1];
    assert !Finds(HashKey, [t1], t2) by {
      forall y | y in [t1] ensures !Hit(HashKey, y, t2) {
        assert y == t1;
      }
    }
  }

  /** With the corrected key, selecting an item makes every item equal to it
      selected. */
  lemma CorrectedSelectionFindsEqual(s: seq<VWrapper>, t1: VWrapper, t2: VWrapper)
    requires NoDup(ConsistentKey, s)
    requires WrapperEq(t1, t2)
    ensures Finds(ConsistentKey, Inserted(ConsistentKey, s, t1), t2)
  {
    ConsistentKeyRespectsEq(t1, t2);
    InsertedProperties(ConsistentKey, s, t1);
  }

  /** `StaticData`: the drive list and the selection set. */
  class StaticData {
    var drives: seq<PitouDrive>
    var selections: seq<VWrapper>

    ghost predicate Valid()
      reads this
    {
      NoDup(HashKey, selections)
    }

    /** `StaticData::new`. */
    constructor ()
      ensures Valid() && drives == [] && selections == []
    {
      drives := [];
      selections := [];
    }

    /** `update_drives`: replaces the drive list. */
    method UpdateDrives(d: seq<PitouDrive>)
      requires Valid()
      modifies this
      ensures Valid() && drives == d && selections == old(selections)
    {
      drives := d;
    }

    /** `clear_selection`. */
    method ClearSelection(item: VWrapper)
      requires Valid()
      modifies this
      ensures Valid()
      ensures selections == Without(HashKey, old(selections), item) && drives == old(drives)
    {
      WithoutNoDup(HashKey, selections, item);
      selections := Without(HashKey, selections, item);
    }

    /** `clear_all_selections`. */
    method ClearAllSelections()
      modifies this
      ensures Valid() && selections == [] && drives == old(drives)
    {
      selections := [];
    }

    /** `is_selected`. */
    method IsSelected(item: VWrapper) returns (selected: bool)
      ensures selected <==> Finds(HashKey, selections, item)
    {
      selected := exists y :: y in selections && Hit(HashKey, y, item);
    }

    /** `add_selection`. */
    method AddSelection(item: VWrapper)
      requires Valid()
      modifies this
      ensures Valid()
      ensures selections == Inserted(HashKey, old(selections), item) && drives == old(drives)
    {
      InsertedProperties(HashKey, selections, item);
      if !(exists y :: y in selections && Hit(HashKey, y, item)) {
        selections := selections + [item];
      }
    }
  }

  /** Selecting then asking: the item is selected; after clearing it, it is
      not, and the answer for an item not equal to it is unchanged. */
  method SelectAskClear(d: StaticData, x: VWrapper, y: VWrapper) returns (afterAdd: bool, afterClear: bool, other: bool)
    requires d.Valid() && !WrapperEq(y, x)
    modifies d
    ensures afterAdd && !afterClear
    ensures other <==> Finds(HashKey, old(d.selections), y) || Hit(HashKey, x, y)
    ensures d.Valid()
  {
    d.AddSelection(x);
    InsertedProperties(HashKey, old(d.selections), x);
    afterAdd := d.IsSelected(x);
    ghost var mid := d.selections;
    d.ClearSelection(x);
    WithoutFinds(HashKey, mid, x, x);
    afterClear := d.IsSelected(x);
    WithoutFinds(HashKey, mid, x, y);
    other := d.IsSelected(y);
  }

  // ---------------------------------------------------------------------
  // A tab's search results

  /** The results after `append_search_results(items)`: an absent buffer
      becomes `items`, a present one is extended at the back. */
  function Appended(results: Option<seq<PitouFile>>, items: seq<PitouFile>): (r: Option<seq<PitouFile>>)
  {
    Some((if results.Some? then results.value else []) + items)
  }

  /** Appending keeps what was there in front, in order, creates the buffer
      when absent, and two appends are one append of both batches. */
  lemma AppendedProperties(results: Option<seq<PitouFile>>, a: seq<PitouFile>, b: seq<PitouFile>)
    ensures Appended(results, a).Some?
    ensures results.None? ==> Appended(results, a).value == a
    ensures results.Some? ==> Appended(results, a).value[..|results.value|] == results.value
    ensures results.Some? ==> Appended(results, a).value[|results.value|..] == a
    ensures Appended(Appended(results, a), b) == Appended(results, a + b)
  {
    var v := if results.Some? then results.value else [];
    assert (v + a) + b == v + (a + b);
  }

  /** The `search_results` cell of a `TabCtx`. */
  class TabCtx {
    var searchResults: Option<seq<PitouFile>>

    constructor ()
      ensures searchResults == None
    {
      searchResults := None;
    }

    /** `udpate_search_results` (spelled so in the library): overwrites the
      results. */
    method UpdateSearchResults(results: Option<seq<PitouFile>>)
      modifies this
      ensures searchResults == results
    {
      searchResults := results;
    }

    /** `append_search_results`: `get_or_insert_with` an empty buffer, then
      `extend`. */
    method AppendSearchResults(items: seq<PitouFile>)
      modifies this
      ensures searchResults == Appended(old(searchResults), items)
    {
      var res := if searchResults.Some? then searchResults.value else [];
      searchResults := Some(res + items);
    }
  }
}
