/**
 * `WallpaperViewModel`: the folder reload, with its last-request-wins token,
 * and the commands that delegate to the wallpaper engine.
 *
 * A reload runs in two steps. `ReloadContent` runs on the main queue: it asks
 * the engine to check the folder, clears the thumbnail cache, filters the listing
 * and mints a token. `CompleteReload` is the background `map` followed by the
 * main-queue publication: it builds the items and publishes them only while the
 * token is still the current one.
 */
module ContentReload {
  import opened Wrappers
  import opened Ids
  import opened Media
  import opened Thumbnails

  /** The engine calls the view model makes, in the order it makes them. */
  datatype EngineCall =
    | CheckFolderPath
    | GenerateThumbnails
    | StartWallpaperWithPath(path: string, displays: seq<DisplayID>)
    | ClearEngineCache

  /** The wallpaper engine, seen only through the calls made to it. */
  class Engine {
    var calls: seq<EngineCall>
    /** What `thumbnailCachePath()` returns; `None` stands for a nil string. */
    const thumbnailCachePath: Option<string>

    constructor (cacheDir: Option<string>)
      ensures calls == [] && thumbnailCachePath == cacheDir
    {
      calls := [];
      thumbnailCachePath := cacheDir;
    }

    method Call(c: EngineCall)
      modifies this
      ensures calls == old(calls) + [c]
    {
      calls := calls + [c];
    }
  }

  /** A reload in flight: its token and the video files it found. */
  datatype PendingReload = PendingReload(id: nat, files: seq<string>)

  class WallpaperViewModel {
    var videos: seq<VideoItem>
    var folderPath: string
    /** The token of the most recent reload; stands for `currentReloadID`. */
    var currentReloadID: nat
    /** The next token to mint; every token minted so far is smaller. */
    var nextReloadID: nat
    const engine: Engine
    /** `ThumbnailCache.shared`. */
    const thumbs: ThumbnailCache

    ghost predicate Valid()
      reads this, thumbs
    {
      currentReloadID < nextReloadID && thumbs.Valid()
    }

    /** Starts with no videos and a token that no reload carries. */
    constructor (engine: Engine, thumbs: ThumbnailCache, folderPath: string)
      requires thumbs.Valid()
      ensures Valid()
      ensures this.engine == engine && this.thumbs == thumbs && this.folderPath == folderPath
      ensures videos == [] && currentReloadID == 0 && nextReloadID == 1
    {
      this.engine := engine;
      this.thumbs := thumbs;
      this.folderPath := folderPath;
      videos := [];
      currentReloadID := 0;
      nextReloadID := 1;
    }

    /**
     * `reloadContent` up to the hand-over to the background queue. `listing` is the
     * folder's directory listing, `None` when listing it throws. On that failure the
     * reload stops after clearing the cache: no token is minted and the published
     * videos stay. Otherwise a fresh token becomes the current one.
     */
    method ReloadContent(listing: Option<seq<string>>) returns (pending: Option<PendingReload>)
      requires Valid()
      modifies this, engine, thumbs
      ensures Valid()
      ensures engine.calls == old(engine.calls) + [CheckFolderPath]
      ensures thumbs.cache == map[] && thumbs.lastUpdate > old(thumbs.lastUpdate)
      ensures videos == old(videos) && folderPath == old(folderPath)
      ensures listing.None? ==>
                pending.None? && currentReloadID == old(currentReloadID) && nextReloadID == old(nextReloadID)
      ensures listing.Some? ==>
                && pending == Some(PendingReload(old(nextReloadID), VideoFiles(listing.value)))
                && currentReloadID == old(nextReloadID) && nextReloadID == old(nextReloadID) + 1
    {
      engine.Call(CheckFolderPath);
      thumbs.ClearCache();
      if listing.None? {
        return None;
      }
      var videoFiles := VideoFiles(listing.value);
      var reloadID := nextReloadID;
      nextReloadID := nextReloadID + 1;
      currentReloadID := reloadID;
      pending := Some(PendingReload(reloadID, videoFiles));
    }

    /**
     * The background `map` and the main-queue block after it. The items are built
     * from the folder path and the engine's cache directory as they are when this
     * step runs. A stale token changes nothing. A current one publishes the items,
     * looks each thumbnail up in the cache and asks the engine to generate thumbnails
     * once if any lookup came back empty.
     */
    method CompleteReload(p: PendingReload, disk: map<string, Image>) returns (published: bool)
      requires Valid()
      modifies this, engine, thumbs
      ensures Valid()
      ensures published == (p.id == old(currentReloadID))
      ensures folderPath == old(folderPath)
      ensures currentReloadID == old(currentReloadID) && nextReloadID == old(nextReloadID)
      ensures thumbs.lastUpdate == old(thumbs.lastUpdate)
      ensures !published ==>
                videos == old(videos) && engine.calls == old(engine.calls) && thumbs.cache == old(thumbs.cache)
      ensures published ==> forall k :: k in thumbs.cache ==> k in old(thumbs.cache) || k in disk
      ensures published ==> videos == MakeItems(folderPath, engine.thumbnailCachePath, p.files)
      ensures published ==>
                engine.calls == old(engine.calls) || engine.calls == old(engine.calls) + [GenerateThumbnails]
      ensures published && engine.calls != old(engine.calls) ==>
                exists i :: 0 <= i < |videos| && videos[i].thumbnailPath !in disk
      ensures published &&
              (exists i :: 0 <= i < |videos| && videos[i].thumbnailPath !in disk &&
                                                 videos[i].thumbnailPath !in old(thumbs.cache)) ==>
                engine.calls == old(engine.calls) + [GenerateThumbnails]
    {
      var newVideos := MakeItems(folderPath, engine.thumbnailCachePath, p.files);
      if p.id != currentReloadID {
        return false;
      }
      videos := newVideos;
      var missing := MissingThumbnails(newVideos, disk);
      if missing != [] {
        assert missing[0] in newVideos && missing[0].thumbnailPath !in disk;
        engine.Call(GenerateThumbnails);
      }
      published := true;
    }

    /**
     * `newVideos.filter { $0.loadThumbnail() == nil }`: the items whose cache lookup
     * came back empty. A lookup can only come back empty for a file absent from disk,
     * and does so for every such file the cache did not already hold.
     */
    method MissingThumbnails(items: seq<VideoItem>, disk: map<string, Image>) returns (missing: seq<VideoItem>)
      requires thumbs.Valid()
      modifies thumbs
      ensures thumbs.Valid() && thumbs.lastUpdate == old(thumbs.lastUpdate)
      ensures forall k :: k in thumbs.cache ==> k in old(thumbs.cache) || k in disk
      ensures forall it :: it in missing ==> it in items && it.thumbnailPath !in disk
      ensures forall it :: it in items && it.thumbnailPath !in disk && it.thumbnailPath !in old(thumbs.cache) ==>
                it in missing
    {
      missing := [];
      var i := 0;
      while i < |items|
        invariant 0 <= i <= |items|
        invariant thumbs.Valid() && thumbs.lastUpdate == old(thumbs.lastUpdate)
        invariant forall k :: k in thumbs.cache ==> k in old(thumbs.cache) || k in disk
        invariant forall it :: it in missing ==> it in items[..i] && it.thumbnailPath !in disk
        invariant forall j ::
                    (0 <= j < i && items[j].thumbnailPath !in disk && items[j].thumbnailPath !in old(thumbs.cache))
                    ==> items[j] in missing
      {
        var img := thumbs.ImageFor(items[i].thumbnailPath, disk);
        if img.None? {
          missing := missing + [items[i]];
        }
        i := i + 1;
      }
    }

    /** `startWallpaper(video:displays:)`: hands the video's path and the display ids to the engine. */
    method StartWallpaper(video: VideoItem, displays: seq<DisplayID>)
      modifies engine
      ensures engine.calls == old(engine.calls) + [StartWallpaperWithPath(video.path, displays)]
    {
      engine.Call(StartWallpaperWithPath(video.path, displays));
    }

    /** `clearCache()`: clears the engine's cache and the thumbnail cache, then reloads. */
    method ClearCache(listing: Option<seq<string>>) returns (pending: Option<PendingReload>)
      requires Valid()
      modifies this, engine, thumbs
      ensures Valid()
      ensures engine.calls == old(engine.calls) + [ClearEngineCache, CheckFolderPath]
      ensures thumbs.cache == map[] && thumbs.lastUpdate >= old(thumbs.lastUpdate) + 2
      ensures videos == old(videos) && folderPath == old(folderPath)
      ensures listing.None? ==>
                pending.None? && currentReloadID == old(currentReloadID) && nextReloadID == old(nextReloadID)
      ensures listing.Some? ==>
                && pending == Some(PendingReload(old(nextReloadID), VideoFiles(listing.value)))
                && currentReloadID == old(nextReloadID) && nextReloadID == old(nextReloadID) + 1
    {
      engine.Call(ClearEngineCache);
      thumbs.ClearCache();
      pending := ReloadContent(listing);
    }
  }

  /**
   * Two reloads issued before either completes: whichever completes first, only the
   * second one's items are published, and only the second completion may ask the engine
   * to generate thumbnails; the first one's completion calls nothing and bumps nothing.
   */
  method LastRequestWins(vm: WallpaperViewModel, first: seq<string>, second: seq<string>,
                         disk: map<string, Image>, staleFirst: bool)
    requires vm.Valid()
    modifies vm, vm.engine, vm.thumbs
    ensures vm.Valid()
    ensures vm.videos == MakeItems(vm.folderPath, vm.engine.thumbnailCachePath, VideoFiles(second))
    ensures vm.currentReloadID == old(vm.nextReloadID) + 1
    ensures var checks := old(vm.engine.calls) + [CheckFolderPath, CheckFolderPath];
      vm.engine.calls == checks || vm.engine.calls == checks + [GenerateThumbnails]
  {
    var p1 := vm.ReloadContent(Some(first));
    var p2 := vm.ReloadContent(Some(second));
    assert vm.engine.calls == old(vm.engine.calls) + [CheckFolderPath, CheckFolderPath];
    if staleFirst {
      var ok1 := vm.CompleteReload(p1.value, disk);
      assert !ok1;
      var ok2 := vm.CompleteReload(p2.value, disk);
      assert ok2;
    } else {
      var ok2 := vm.CompleteReload(p2.value, disk);
      assert ok2;
      ghost var published := vm.videos;
      var ok1 := vm.CompleteReload(p1.value, disk);
      assert !ok1 && vm.videos == published;
    }
  }

  /**
   * A reload whose listing fails mints no token, so it does not supersede a reload
   * already in flight: that earlier reload still publishes its items.
   */
  method FailedListingKeepsInFlight(vm: WallpaperViewModel, first: seq<string>, disk: map<string, Image>)
    requires vm.Valid()
    modifies vm, vm.engine, vm.thumbs
    ensures vm.videos == MakeItems(vm.folderPath, vm.engine.thumbnailCachePath, VideoFiles(first))
  {
    var p1 := vm.ReloadContent(Some(first));
    var p2 := vm.ReloadContent(None);
    assert p2.None?;
    var ok1 := vm.CompleteReload(p1.value, disk);
    assert ok1;
  }
}
