/** The backend clipboard: a stack of copy/cut operations. `paste` takes the
    most recent one and leaves it on the stack as a copy, so a cut is moved
    only once. */
module Clipboard {
  import opened Prim
  import opened Files

  datatype ClipboardItem = Copied(files: seq<PitouFile>) | Cut(files: seq<PitouFile>)

  /** The stack after a paste: the top is now a copy of the same files,
      everything below is kept. */
  function AfterPaste(items: seq<ClipboardItem>): (r: seq<ClipboardItem>)
    requires items != []
  {
    items[..|items| - 1] + [Copied(items[|items| - 1].files)]
  }

  /** A paste keeps the length and the lower items, turns the top into a copy
      of the same files, and a second paste changes nothing more (so it hands
      out a `Copied` item even if the first handed out a `Cut`). */
  lemma AfterPasteProperties(items: seq<ClipboardItem>)
    requires items != []
    ensures |AfterPaste(items)| == |items|
    ensures forall i :: 0 <= i < |items| - 1 ==> AfterPaste(items)[i] == items[i]
    ensures AfterPaste(items)[|items| - 1].Copied?
    ensures AfterPaste(items)[|items| - 1].files == items[|items| - 1].files
    ensures AfterPaste(AfterPaste(items)) == AfterPaste(items)
  {
    var r := AfterPaste(items);
    assert r[..|r| - 1] == items[..|items| - 1];
  }

  /** The `CLIPBOARD` static; the top of the stack is the last element. */
  class ClipboardStack {
    var items: seq<ClipboardItem>

    constructor ()
      ensures items == []
    {
      items := [];
    }

    /** `copy`: pushes the files as a copy. */
    method Copy(files: seq<PitouFile>)
      modifies this
      ensures items == old(items) + [Copied(files)]
    {
      items := items + [Copied(files)];
    }

    /** `cut`: pushes the files as a cut. */
    method Cut(files: seq<PitouFile>)
      modifies this
      ensures items == old(items) + [ClipboardItem.Cut(files)]
    {
      items := items + [ClipboardItem.Cut(files)];
    }

    /** `remove_from_clipboard`: `Vec::remove`, which panics unless `idx` is in range. */
    method RemoveFromClipboard(idx: nat)
      requires idx < |items|
      modifies this
      ensures items == old(items)[..idx] + old(items)[idx + 1..]
    {
      items := items[..idx] + items[idx + 1..];
    }

    /** `clear_clipboard`. */
    method ClearClipboard()
      modifies this
      ensures items == []
    {
      items := [];
    }

    /** `is_empty`. */
    method IsEmpty() returns (empty: bool)
      ensures empty <==> |items| == 0
    {
      empty := |items| == 0;
    }

    /** `paste`: pops the top item and pushes it back as a copy; returns the
      popped item with its original tag, or `None` on an empty clipboard. */
    method Paste() returns (item: Option<ClipboardItem>)
      modifies this
      ensures old(items) == [] ==> item == None && items == []
      ensures old(items) != [] ==> item == Some(old(items)[|old(items)| - 1]) && items == AfterPaste(old(items))
    {
      if items == [] {
        item := None;
      } else {
        var top := items[|items| - 1];
        items := items[..|items| - 1];
        item := Some(top);
        match top
        case Copied(u) => items := items + [Copied(u)];
        case Cut(u) => items := items + [Copied(u)];
      }
    }
  }

  /** The client view of a cut and two pastes: the first paste gets the cut,
      the second a copy of the same files, and the stack keeps its length. */
  method CutThenPasteTwice(c: ClipboardStack, files: seq<PitouFile>) returns (first: Option<ClipboardItem>, second: Option<ClipboardItem>)
    modifies c
    ensures first == Some(Cut(files)) && second == Some(Copied(files))
    ensures c.items == old(c.items) + [Copied(files)]
  {
    c.Cut(files);
    first := c.Paste();
    second := c.Paste();
    assert c.items[..|c.items| - 1] == old(c.items);
  }
}

/** The older `fs_ops` clipboard: the same stack, but `paste` hands out only
    the files, whatever the tag. */
module LegacyClipboard {
  import opened Prim
  import opened Files
  import CB = Clipboard

  class ClipboardStack {
    var items: seq<CB.ClipboardItem>

    constructor ()
      ensures items == []
    {
      items := [];
    }

    /** `copy`. */
    method Copy(files: seq<PitouFile>)
      modifies this
      ensures items == old(items) + [CB.Copied(files)]
    {
      items := items + [CB.Copied(files)];
    }

    /** `cut`. */
    method Cut(files: seq<PitouFile>)
      modifies this
      ensures items == old(items) + [CB.Cut(files)]
    {
      items := items + [CB.Cut(files)];
    }

    /** `remove_from_clipboard`. */
    method RemoveFromClipboard(idx: nat)
      requires idx < |items|
      modifies this
      ensures items == old(items)[..idx] + old(items)[idx + 1..]
    {
      items := items[..idx] + items[idx + 1..];
    }

    /** `clear_clipboard`. */
    method ClearClipboard()
      modifies this
      ensures items == []
    {
      items := [];
    }

    /** `paste`: the files of the top item, which becomes a copy; `None` and no
      change when empty. */
    method Paste() returns (files: Option<seq<PitouFile>>)
      modifies this
      ensures old(items) == [] ==> files == None && items == []
      ensures old(items) != [] ==>
        && files == Some(old(items)[|old(items)| - 1].files)
        && items == CB.AfterPaste(old(items))
    {
      if items == [] {
        return None;
      }
      var top := items[|items| - 1];
      items := items[..|items| - 1];
      var vals := match top case Copied(v) => v case Cut(v) => v;
      items := items + [CB.Copied(vals)];
      files := Some(vals);
    }
  }
}
