/**
 * `ThumbnailCache`: a bounded in-memory store from thumbnail path to decoded image,
 * filled lazily on a miss and emptied by the generator's notifications.
 * `lastUpdate`, a `Date` that views observe to redraw, is a counter here:
 * each refresh makes it larger.
 */
module Thumbnails {
  import opened Wrappers

  /** A decoded `NSImage`; only its identity matters to the cache. */
  datatype Image = Image(id: nat)

  /** `cache.countLimit`. */
  const CountLimit: nat := 100

  /** Every key of `m` is a key of `bigger` with the same image. */
  predicate SubMap(m: map<string, Image>, bigger: map<string, Image>)
  {
    forall k :: k in m ==> k in bigger && m[k] == bigger[k]
  }

  class ThumbnailCache {
    var cache: map<string, Image>
    var lastUpdate: nat

    ghost predicate Valid()
      reads this
    {
      |cache| <= CountLimit
    }

    constructor ()
      ensures Valid() && cache == map[] && lastUpdate == 0
    {
      cache := map[];
      lastUpdate := 0;
    }

    /**
     * `image(for:)`. `disk` holds the thumbnail files that exist and decode.
     * A hit returns the cached image whatever the disk holds. A miss on a file that
     * does not exist or does not decode returns nothing and stores nothing. Any other
     * miss stores the decoded image, possibly evicting entries, and returns it.
     */
    method ImageFor(path: string, disk: map<string, Image>) returns (r: Option<Image>)
      requires Valid()
      modifies this
      ensures Valid() && lastUpdate == old(lastUpdate)
      ensures path in old(cache) ==> r == Some(old(cache)[path]) && cache == old(cache)
      ensures path !in old(cache) && path !in disk ==> r == None && cache == old(cache)
      ensures path !in old(cache) && path in disk ==>
                r == Some(disk[path]) && path in cache && SubMap(cache, old(cache)[path := disk[path]])
    {
      if path in cache {
        return Some(cache[path]);
      }
      if path !in disk {
        return None;
      }
      var img := disk[path];
      if |cache| >= CountLimit {
        // The cache is full: the store evicts an entry of its own choosing.
        var victim :| victim in cache;
        assert cache.Keys - {victim} == (cache - {victim}).Keys;
        cache := cache - {victim};
      }
      cache := cache[path := img];
      r := Some(img);
    }

    /** The `ThumbnailSaved` notification: drops the notified path, if the notification has one. */
    method ThumbnailSaved(path: Option<string>)
      requires Valid()
      modifies this
      ensures Valid() && lastUpdate > old(lastUpdate)
      ensures path.Some? ==> cache == old(cache) - {path.value}
      ensures path.None? ==> cache == old(cache)
    {
      if path.Some? {
        cache := cache - {path.value};
      }
      lastUpdate := lastUpdate + 1;
    }

    /** The `ThumbnailsGenerated` notification: drops every entry. */
    method ThumbnailsGenerated()
      modifies this
      ensures Valid() && cache == map[] && lastUpdate > old(lastUpdate)
    {
      cache := map[];
      lastUpdate := lastUpdate + 1;
    }

    /** `clearCache()`: drops every entry. */
    method ClearCache()
      modifies this
      ensures Valid() && cache == map[] && lastUpdate > old(lastUpdate)
    {
      cache := map[];
      lastUpdate := lastUpdate + 1;
    }
  }

  /**
   * After the file at `path` is reported rewritten, the next lookup of `path` reads the
   * disk again: it returns the image now on disk, not the one cached before.
   */
  method ReadAfterSave(c: ThumbnailCache, path: string, disk: map<string, Image>) returns (r: Option<Image>)
    requires c.Valid()
    modifies c
    ensures c.Valid()
    ensures r == if path in disk then Some(disk[path]) else None
  {
    c.ThumbnailSaved(Some(path));
    r := c.ImageFor(path, disk);
  }
}
