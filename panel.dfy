/**
 * One image panel: the list of image paths of the chosen folder and the
 * cursor on the image shown, changed by loading a folder, re-sorting,
 * stepping back and forth, and picking a row of the file list.
 */
module Panel {
  import opened Wrappers
  import opened Paths
  import opened Sorting
  import opened Geometry

  /** What `load_images` ends with. */
  datatype LoadOutcome = FolderNotChosen | NoImagesFound | Loaded

  /** `sorted(names)`: Python's ordering of plain strings. */
  function NameKey(f: string): SortKey {
    ByName(f)
  }

  /** The directory entries `sorted` by name and kept by the image filter. */
  function ImageNames(names: seq<string>): (r: seq<string>)
    ensures forall f :: multiset(r)[f] == if IsImageName(f) then multiset(names)[f] else 0
    ensures r == [] <==> forall f :: f in names ==> !IsImageName(f)
  {
    var r := ImagesAmong(SortBy(names, NameKey, false));
    assert r == [] <==> multiset(r) == multiset{};
    assert r == [] ==> forall f :: f in names ==> !IsImageName(f) by {
      if r == [] {
        forall f | f in names ensures !IsImageName(f) {
          assert multiset(names)[f] > 0;
          assert multiset(r)[f] == 0;
        }
      }
    }
    assert r != [] ==> r[0] in names by {
      if r != [] {
        assert multiset(r)[r[0]] > 0;
      }
    }
    r
  }

  /** Filtering a sorted listing leaves it sorted. */
  lemma {:induction false} ImagesAmongSorted(s: seq<string>, key: string -> SortKey, desc: bool)
    requires Sorted(s, key, desc)
    ensures Sorted(ImagesAmong(s), key, desc)
    decreases |s|
  {
    if s != [] {
      SortedTail(s, key, desc);
      ImagesAmongSorted(s[1..], key, desc);
      var rest := ImagesAmong(s[1..]);
      if IsImageName(s[0]) {
        HeadBoundsTail(s, key, desc);
        forall k | 0 <= k < |rest| ensures InOrder(key(s[0]), key(rest[k]), desc) {
          assert multiset(rest)[rest[k]] > 0;
          assert rest[k] in s[1..];
        }
        SortedCons(s[0], rest, key, desc);
        assert ImagesAmong(s) == [s[0]] + rest;
      } else {
        assert ImagesAmong(s) == rest;
      }
    }
  }

  /** In a sorted listing the first entry may stand before every later one. */
  lemma HeadBoundsTail(s: seq<string>, key: string -> SortKey, desc: bool)
    requires s != [] && Sorted(s, key, desc)
    ensures forall x :: x in s[1..] ==> InOrder(key(s[0]), key(x), desc)
  {
    forall x | x in s[1..] ensures InOrder(key(s[0]), key(x), desc) {
      var k :| 0 <= k < |s[1..]| && s[1..][k] == x;
      assert s[k + 1] == x;
    }
  }

  /** An entry that may stand before every entry of a sorted listing extends it. */
  lemma SortedCons(h: string, t: seq<string>, key: string -> SortKey, desc: bool)
    requires Sorted(t, key, desc)
    requires forall k :: 0 <= k < |t| ==> InOrder(key(h), key(t[k]), desc)
    ensures Sorted([h] + t, key, desc)
  {
    var r := [h] + t;
    forall i, j | 0 <= i < j < |r| ensures InOrder(key(r[i]), key(r[j]), desc) {
      assert r[j] == t[j - 1];
      if i > 0 {
        assert r[i] == t[i - 1];
      }
    }
  }

  /** The kept entries are in the order of `sorted`: by name, ascending. */
  lemma ImageNamesSorted(names: seq<string>)
    ensures Sorted(ImageNames(names), NameKey, false)
  {
    SortBySorted(names, NameKey, false);
    ImagesAmongSorted(SortBy(names, NameKey, false), NameKey, false);
  }

  /**
   * The paths `load_images` collects: each kept entry joined to the folder, in
   * the order of the kept entries.
   */
  function ImageFiles(folder: string, names: seq<string>): (r: seq<string>)
    ensures |r| == |ImageNames(names)|
    ensures forall k :: 0 <= k < |r| ==> r[k] == Join(folder, ImageNames(names)[k])
  {
    var fs := ImageNames(names);
    seq(|fs|, i requires 0 <= i < |fs| => Join(folder, fs[i]))
  }

  /**
   * When the entries are plain names, every collected path lies in the folder,
   * and its base name is the entry it came from, an image name.
   */
  lemma ImageFilesInFolder(folder: string, names: seq<string>)
    requires forall f :: f in names ==> '/' !in f
    ensures forall k :: 0 <= k < |ImageFiles(folder, names)| ==>
      && |folder| <= |ImageFiles(folder, names)[k]|
      && ImageFiles(folder, names)[k][..|folder|] == folder
      && Basename(ImageFiles(folder, names)[k]) == ImageNames(names)[k]
      && IsImageName(Basename(ImageFiles(folder, names)[k]))
  {
    var fs := ImageNames(names);
    var r := ImageFiles(folder, names);
    ImageNamesMembers(names);
    forall k | 0 <= k < |r|
      ensures |folder| <= |r[k]| && r[k][..|folder|] == folder
      ensures Basename(r[k]) == fs[k] && IsImageName(Basename(r[k]))
    {
      JoinedEntry(folder, fs[k]);
    }
  }

  /** Every kept entry is an entry of the folder and passes the filter. */
  lemma ImageNamesMembers(names: seq<string>)
    ensures forall k :: 0 <= k < |ImageNames(names)| ==>
      ImageNames(names)[k] in names && IsImageName(ImageNames(names)[k])
  {
    var fs := ImageNames(names);
    forall k | 0 <= k < |fs| ensures fs[k] in names && IsImageName(fs[k]) {
      assert multiset(fs)[fs[k]] > 0;
    }
  }

  /** An entry without a separator, joined to the folder, lies in the folder and keeps its name. */
  lemma JoinedEntry(folder: string, f: string)
    requires '/' !in f
    ensures |folder| <= |Join(folder, f)| && Join(folder, f)[..|folder|] == folder
    ensures Basename(Join(folder, f)) == f
  {
    assert f != [] ==> f[0] in f;
    BasenameOfJoin(folder, f);
  }

  /** `self.images.index(x)`: the first position of `x`. */
  function IndexOf(s: seq<string>, x: string): (r: nat)
    requires x in s
    ensures r < |s| && s[r] == x
    ensures forall k :: 0 <= k < r ==> s[k] != x
  {
    if s[0] == x then 0 else 1 + IndexOf(s[1..], x)
  }

  class ImagePanel {
    var images: seq<string>
    var currentIndex: int
    var sortMode: SortMode

    /** The cursor is -1 exactly when there are no images, and otherwise on one of them. */
    ghost predicate Valid()
      reads this
    {
      if images == [] then currentIndex == -1 else 0 <= currentIndex < |images|
    }

    constructor ()
      ensures Valid()
      ensures images == [] && currentIndex == -1 && sortMode == NameAscending
    {
      images := [];
      currentIndex := -1;
      sortMode := NameAscending;
    }

    /** `get_current_image_path`. */
    function CurrentImagePath(): (r: Option<string>)
      reads this
      ensures r.Some? <==> 0 <= currentIndex < |images|
      ensures r.Some? ==> r.value == images[currentIndex]
    {
      if images != [] && 0 <= currentIndex < |images| then Some(images[currentIndex]) else None
    }

    /** `get_current_filename`. */
    function CurrentFilename(): (r: Option<string>)
      reads this
      ensures r.Some? <==> 0 <= currentIndex < |images| && images[currentIndex] != ""
      ensures r.Some? ==> r.value == Basename(images[currentIndex])
    {
      var p := CurrentImagePath();
      if p.Some? && p.value != "" then Some(Basename(p.value)) else None
    }

    /** `show_previous_image`. */
    method ShowPrevious()
      modifies this`currentIndex
      ensures old(Valid()) ==> Valid()
      ensures currentIndex == if images != [] && old(currentIndex) > 0 then old(currentIndex) - 1 else old(currentIndex)
    {
      if images != [] && currentIndex > 0 {
        currentIndex := currentIndex - 1;
      }
    }

    /** `show_next_image`. */
    method ShowNext()
      modifies this`currentIndex
      ensures old(Valid()) ==> Valid()
      ensures currentIndex == if images != [] && old(currentIndex) < |images| - 1 then old(currentIndex) + 1 else old(currentIndex)
    {
      if images != [] && currentIndex < |images| - 1 {
        currentIndex := currentIndex + 1;
      }
    }

    /** `on_list_row_changed`: a row of the file list was selected. */
    method OnListRowChanged(row: int)
      modifies this`currentIndex
      ensures old(Valid()) ==> Valid()
      ensures currentIndex == if 0 <= row < |images| && row != old(currentIndex) then row else old(currentIndex)
    {
      if 0 <= row < |images| && row != currentIndex {
        currentIndex := row;
      }
    }

    /**
     * `sort_images`: re-sort by the current mode; with `keepSelection` the same
     * path stays current, otherwise the first image becomes current.
     */
    method SortImages(keepSelection: bool, fs: FileTimes)
      modifies this`images, this`currentIndex
      ensures old(images) == [] ==> images == old(images) && currentIndex == old(currentIndex)
      ensures old(images) != [] ==> Valid()
      ensures old(images) != [] ==> images == SortBy(old(images), KeyFn(sortMode, fs), Descending(sortMode))
      ensures old(images) != [] && keepSelection && old(CurrentImagePath()).Some? ==>
        CurrentImagePath() == old(CurrentImagePath())
      ensures old(images) != [] && !(keepSelection && old(CurrentImagePath()).Some?) ==> currentIndex == 0
    {
      if images == [] {
        return;
      }
      var prev: Option<string> := if keepSelection then CurrentImagePath() else None;
      var before := images;
      images := SortBy(images, KeyFn(sortMode, fs), Descending(sortMode));
      if prev.Some? {
        assert prev.value in multiset(before);
        assert prev.value in images;
      }
      if prev.Some? && prev.value in images {
        currentIndex := IndexOf(images, prev.value);
      } else {
        currentIndex := 0;
      }
    }

    /** `on_sort_changed`: a new sort mode is chosen and applied, keeping the selection. */
    method ChangeSortMode(mode: SortMode, fs: FileTimes)
      modifies this
      ensures sortMode == mode
      ensures old(images) == [] ==> images == old(images) && currentIndex == old(currentIndex)
      ensures old(images) != [] ==> Valid()
      ensures old(images) != [] ==> images == SortBy(old(images), KeyFn(mode, fs), Descending(mode))
      ensures old(CurrentImagePath()).Some? ==> CurrentImagePath() == old(CurrentImagePath())
      ensures old(images) != [] && old(CurrentImagePath()).None? ==> currentIndex == 0
    {
      sortMode := mode;
      SortImages(true, fs);
    }

    /**
     * `load_images`: `folder` is the folder chosen in the dialog (empty when the
     * dialog was cancelled) and `names` its entries.
     */
    method LoadImages(folder: string, names: seq<string>, fs: FileTimes) returns (outcome: LoadOutcome)
      modifies this`images, this`currentIndex
      ensures outcome == FolderNotChosen <==> folder == ""
      ensures outcome == NoImagesFound <==> folder != "" && ImageFiles(folder, names) == []
      ensures outcome != Loaded ==> images == old(images) && currentIndex == old(currentIndex)
      ensures outcome == Loaded ==>
        && Valid()
        && images == SortBy(ImageFiles(folder, names), KeyFn(sortMode, fs), Descending(sortMode))
        && currentIndex == 0
    {
      if folder == "" {
        return FolderNotChosen;
      }
      var files := ImageFiles(folder, names);
      if files == [] {
        return NoImagesFound;
      }
      images := files;
      SortImages(false, fs);
      return Loaded;
    }

    /**
     * The badges `display_image` paints on the preview of the current image,
     * given the preview's size and the overlay from `get_overlay_for_preview`;
     * `None` when no image is loaded.
     */
    method PreviewBadges(preview: Size, overlay: (bool, seq<string>), m: Metrics) returns (r: Option<seq<Badge>>)
      requires Valid()
      ensures r.None? <==> images == []
      ensures r.Some? ==>
        r.value == PreviewLayout(preview.w, preview.h, overlay.0, Basename(images[currentIndex]), overlay.1, m)
    {
      if images == [] {
        return None;
      }
      var basePath := images[currentIndex];
      var badges := PreviewOverlay(preview.w, preview.h, overlay.0, Basename(basePath), overlay.1, m);
      return Some(badges);
    }
  }
}
