/**
 * The pure part of the content reload: which listing entries are videos and
 * the `VideoItem` each one becomes (its absolute path and thumbnail path).
 */
module Media {
  import opened Wrappers
  import opened Paths

  /**
   * One wallpaper candidate. `quality` is left `None` when the item is built:
   * the badge callback writes into a copy of the item, so nothing promises it is set.
   * The per-item `UUID` identity used by the grid is not modelled.
   */
  datatype VideoItem = VideoItem(filename: string, path: string, thumbnailPath: string, quality: Option<string>)

  /** A listing entry is kept when its lower-cased extension is "mp4" or "mov". */
  predicate IsVideoFile(f: string): (b: bool)
    ensures b ==> |PathExtension(f)| == 3 && ExtensionDot(f).Some?
  {
    var e := Lowercased(PathExtension(f));
    e == "mp4" || e == "mov"
  }

  /** Every spelling of the two extensions, in any mix of upper and lower case. */
  const VideoSpellings: set<string> :=
    {"mp4", "mP4", "Mp4", "MP4",
     "mov", "moV", "mOv", "mOV", "Mov", "MoV", "MOv", "MOV"}

  /** The filter is a case-insensitive match against exactly the two extensions. */
  lemma VideoFileSpellings(f: string)
    ensures IsVideoFile(f) <==> PathExtension(f) in VideoSpellings
  {
    var e := PathExtension(f);
    var l := Lowercased(e);
    if |e| == 3 {
      assert l == [LowerChar(e[0]), LowerChar(e[1]), LowerChar(e[2])];
      if l == "mp4" || l == "mov" {
        assert e[0] == 'm' || e[0] == 'M';
        assert e[1] in {'p', 'P', 'o', 'O'};
        assert e[2] in {'4', 'v', 'V'};
        assert e == [e[0], e[1], e[2]];
      }
    }
  }

  /** The files of a listing that are videos, in listing order (the source's `filter`). */
  function VideoFiles(files: seq<string>): (r: seq<string>)
    ensures |r| <= |files|
    ensures forall f :: f in r <==> f in files && IsVideoFile(f)
  {
    if files == [] then []
    else (if IsVideoFile(files[0]) then [files[0]] else []) + VideoFiles(files[1..])
  }

  /** Filtering a concatenation filters each part and keeps them in order. */
  lemma {:induction false} VideoFilesAppend(a: seq<string>, b: seq<string>)
    ensures VideoFiles(a + b) == VideoFiles(a) + VideoFiles(b)
  {
    if a == [] {
      assert a + b == b;
    } else {
      assert (a + b)[1..] == a[1..] + b;
      VideoFilesAppend(a[1..], b);
    }
  }

  /** On one entry the filter keeps it exactly when it is a video. */
  lemma VideoFilesSingle(f: string)
    ensures VideoFiles([f]) == if IsVideoFile(f) then [f] else []
  {
    assert [f][1..] == [];
  }

  /** `<cacheDir>/<name without extension>.png`, or "" when the engine gives no cache directory. */
  function ThumbnailPath(cacheDir: Option<string>, f: string): (thumb: string)
    ensures cacheDir.None? ==> thumb == ""
    ensures cacheDir.Some? ==>
              var png := DeletingPathExtension(f) + ".png";
              && |thumb| >= |cacheDir.value| && |thumb| >= |png|
              && thumb[..|cacheDir.value|] == cacheDir.value && thumb[|thumb| - |png|..] == png
  {
    match cacheDir
    case Some(dir) => AppendingPathComponent(dir, DeletingPathExtension(f) + ".png")
    case None => ""
  }

  /** The item built for listing entry `f` of folder `folder` (one step of the source's `map`). */
  function MakeItem(folder: string, cacheDir: Option<string>, f: string): (item: VideoItem)
    ensures item.filename == f && item.quality.None?
    ensures |item.path| >= |folder| && |item.path| >= |f|
    ensures item.path[..|folder|] == folder && item.path[|item.path| - |f|..] == f
  {
    VideoItem(f, AppendingPathComponent(folder, f), ThumbnailPath(cacheDir, f), None)
  }

  /** The items for a list of video files, one per file, in the same order. */
  function MakeItems(folder: string, cacheDir: Option<string>, files: seq<string>): (items: seq<VideoItem>)
    ensures |items| == |files|
  {
    seq(|files|, i requires 0 <= i < |files| => MakeItem(folder, cacheDir, files[i]))
  }

  /** The names of the items, read back in order. */
  function Filenames(items: seq<VideoItem>): seq<string>
  {
    seq(|items|, i requires 0 <= i < |items| => items[i].filename)
  }

  predicate NoSlash(f: string)
  {
    forall k :: 0 <= k < |f| ==> f[k] != '/'
  }

  /** A video file has an extension, so its name without the extension is not empty. */
  lemma VideoFileHasExtension(f: string)
    requires IsVideoFile(f)
    ensures ExtensionDot(f).Some?
  {
  }

  /**
   * What one derived item says about its file: the video's path ends in the file name,
   * and the thumbnail is a ".png" file whose name, once its extension is stripped,
   * is the video's name without its extension.
   */
  lemma ItemNaming(folder: string, dir: string, f: string)
    requires NoSlash(f) && IsVideoFile(f)
    ensures var it := MakeItem(folder, Some(dir), f);
      && LastComponent(it.path) == f
      && PathExtension(LastComponent(it.thumbnailPath)) == "png"
      && DeletingPathExtension(LastComponent(it.thumbnailPath)) == DeletingPathExtension(f)
  {
    AppendedComponentIsLast(folder, f);
    VideoBase(f);
    ThumbnailName(dir, DeletingPathExtension(f));
  }

  /** A video file's name without its extension is a non-empty name with no '/'. */
  lemma VideoBase(f: string)
    requires NoSlash(f) && IsVideoFile(f)
    ensures |DeletingPathExtension(f)| > 0 && NoSlash(DeletingPathExtension(f))
  {
    VideoFileHasExtension(f);
    ExtensionRoundTrip(f);
  }

  /** The thumbnail file of base name `base` in `dir` is `base.png`. */
  lemma ThumbnailName(dir: string, base: string)
    requires |base| > 0 && NoSlash(base)
    ensures LastComponent(AppendingPathComponent(dir, base + ".png")) == base + ".png"
    ensures PathExtension(base + ".png") == "png"
    ensures DeletingPathExtension(base + ".png") == base
  {
    assert NoSlash(base + ".png");
    AppendedComponentIsLast(dir, base + ".png");
    assert base + "." + "png" == base + ".png";
    AddExtension(base, "png");
  }

  /**
   * The published list for a listing: its names are exactly the video entries of the
   * listing, in listing order, and every item's path and thumbnail are derived from its name.
   */
  lemma {:induction false} PublishedList(folder: string, cacheDir: Option<string>, listing: seq<string>)
    ensures var items := MakeItems(folder, cacheDir, VideoFiles(listing));
      && Filenames(items) == VideoFiles(listing)
      && (forall f :: f in Filenames(items) <==> f in listing && IsVideoFile(f))
      && (forall i :: 0 <= i < |items| ==>
            items[i].path == AppendingPathComponent(folder, items[i].filename)
            && items[i].thumbnailPath == ThumbnailPath(cacheDir, items[i].filename)
            && items[i].quality.None?)
  {
    var files := VideoFiles(listing);
    var items := MakeItems(folder, cacheDir, files);
    assert Filenames(items) == files;
  }
}
