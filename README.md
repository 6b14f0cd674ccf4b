# LiveWallpaperMacOS core, modelled in Dafny

LiveWallpaperMacOS plays video files as desktop wallpapers, with one wallpaper daemon process per
attached display. This project models two pieces of its logic and proves properties about them.

- **Content reload and thumbnail cache** (`ContentView.swift`). `WallpaperViewModel.reloadContent`
  lists the wallpaper folder and keeps the `.mp4`/`.mov` files, matching the extension
  case-insensitively. For each file it derives the absolute path and a `<base>.png` thumbnail path
  in the engine's cache directory. The list is published only if the reload's token is still the
  current one (last request wins). The thumbnail generator runs at most once per published reload,
  and only when a thumbnail lookup came back empty. `ThumbnailCache` is a lazily filled store
  bounded at 100 entries, emptied or pruned by the generator's notifications. The same file also
  holds the dock's display-selection toggle, the reset of the selection when displays are
  reconfigured, and the scale-mode conversion between stored integers and picker tags.
- **Display list reconciliation** (`DisplayManager.h`). `ScanDisplays` reconciles the global list of
  `Display` entries against the attached screens. It erases entries whose uuid is gone and kills
  their daemons, appends an entry for each new uuid, and refreshes every entry's screen id.
  `SetWallpaperDisplay` either rebinds the first entry on a screen, killing its previous daemon, or
  appends a new entry.

Modules. `Paths` holds the NSString path operations. `Media` holds `VideoItem`, the extension filter
and item derivation. `ScaleMode` holds the picker mapping. `Selection` holds the Swift
`DisplayManager`. `Thumbnails` holds `ThumbnailCache`. `ContentReload` holds `WallpaperViewModel`
and a recorder standing for the wallpaper engine. `DisplayList` holds the C++ display list as the
class `DisplayRegistry`. `Ids` and `Wrappers` hold the integer types and `Option`.

Environment as inputs:
- The directory listing is a parameter: `None` when listing throws.
- The thumbnail files that exist and decode are a map `disk` from path to image.
- The attached screens are a sequence of (display id, uuid) pairs.
- Four kinds of engine call are appended to a recorded sequence: `checkFolderPath`,
  `generateThumbnails`, `startWallpaper(withPath:onDisplays:)` and `clearCache`. The engine's
  other calls are not recorded (see "Left out").
- `KillProcessByPID` records every pid it is given, and separately the pids that pass its guard
  and are signalled.
- The `Date()` stored in `lastUpdate` is a counter that every refresh increases.
- The `UUID()` reload tokens are a counter, so each minted token is fresh.

The reload's two dispatch-queue hops become two calls. `ReloadContent` is the main-queue part up to
minting the token. `CompleteReload` is the background `map` followed by the main-queue publication.

Two consequences of the code's ordering:
- A reload mints its token only after the folder has been listed (`ContentView.swift:713-721`). A
  reload whose listing fails mints no token, so it supersedes nothing, and an earlier reload still
  in flight publishes its result. `ContentReload.FailedListingKeepsInFlight` states this.
- The items are built from `folderPath` and the engine's cache directory as they are when the
  background block runs, not when the reload was requested. `CompleteReload` reads both at
  completion.

## Model

| member | source | states |
|---|---|---|
| Paths.LastDot | ContentView.swift:716 | the index found is a '.' with no '.' after it; `None` means the name has no '.' |
| Paths.LastDotAt | ContentView.swift:716 | a '.' with no '.' after it is the one `LastDot` finds |
| Paths.PathExtension | ContentView.swift:716 | the extension of a name never contains a '.' |
| Paths.DeletingPathExtension | ContentView.swift:726 | the base name is a prefix of the name; with an extension it is non-empty, shorter than the name and followed by the extension's '.'; without one it is the whole name |
| Paths.ExtensionRoundTrip | ContentView.swift:716-726 | name without extension + "." + extension gives the name back, and the base is non-empty; a name with no extension is its own base, with extension "" |
| Paths.AddExtension | ContentView.swift:726-727 | appending "." and a dot-free extension to a non-empty base yields exactly that base and that extension |
| Paths.LowerChar | ContentView.swift:716 | `lowercased()` maps A-Z into a-z and keeps every other character |
| Paths.Lowercased | ContentView.swift:716 | lower-casing keeps the length |
| Paths.LowercasedMatches | ContentView.swift:716-717 | comparing a lower-cased string with a lower-case word holds iff they have the same length and agree letter by letter, up to case |
| Paths.AppendingPathComponent | ContentView.swift:725-727 | the joined path starts with the directory and ends with the appended name |
| Paths.AppendedComponentIsLast | ContentView.swift:725-727 | a name with no '/' is the last path component of the joined path |
| Paths.SuffixAfterSlash | ContentView.swift:725 | the text after the last '/' of a path is its last component |
| Media.IsVideoFile | ContentView.swift:715-717 | the filter's test: a kept file has an extension, and it is three characters long |
| Media.VideoFileSpellings | ContentView.swift:715-718 | a file passes the filter iff its extension is one of the 12 upper/lower-case spellings of mp4 and mov |
| Media.VideoFiles | ContentView.swift:715-718 | the filtered list is no longer than the listing, and holds a name iff the listing holds it and it is a video file |
| Media.VideoFilesAppend | ContentView.swift:715-718 | filtering a concatenation filters each part and keeps their order |
| Media.VideoFilesSingle | ContentView.swift:715-718 | on a one-entry listing the filter keeps the entry iff it is a video file |
| Media.ThumbnailPath | ContentView.swift:727 | with a cache directory, the thumbnail path starts with that directory and ends with `<base>.png`; with none (a nil path) it is "" |
| Media.MakeItem | ContentView.swift:724-733 | the item keeps the file name, has no quality, and has a path that starts with the folder and ends with the file name |
| Media.MakeItems | ContentView.swift:723-734 | the `map` builds exactly one item per video file |
| Media.VideoFileHasExtension | ContentView.swift:715-726 | a file the filter keeps has an extension, so its base name is non-empty |
| Media.VideoBase | ContentView.swift:726 | the base name of a video file is non-empty and contains no '/' |
| Media.ThumbnailName | ContentView.swift:727 | the thumbnail of base `b` is the file `b.png`: last component `b.png`, extension "png", base `b` |
| Media.ItemNaming | ContentView.swift:724-729 | an item's path ends in its file name; its thumbnail is a ".png" file whose base is the video's base name |
| Media.PublishedList | ContentView.swift:715-734 | the items' names are the listing's video files in listing order; every item's path is `folder/f`, its thumbnail path is `cacheDir/<base>.png` (or "" without a cache directory), and its quality is unset |
| ScaleMode.ModeName | ContentView.swift:444-452 | 0..4 read as the five tags in order; any other integer reads as "fill" |
| ScaleMode.ModeValue | ContentView.swift:454-464 | a known tag stores its position in the tag list; any other tag stores 0; the value is always in 0..4 |
| ScaleMode.ValueOfName | ContentView.swift:444-464 | storing the tag read for an integer in 0..4 gives that integer again |
| ScaleMode.NameOfValue | ContentView.swift:444-464 | reading back the integer stored for a known tag gives that tag again |
| Selection.Toggled | ContentView.swift:316-320 | toggling flips the pressed id's membership and leaves every other id as it was |
| Selection.ToggleTwice | ContentView.swift:316-320 | toggling the same id twice restores the selection |
| Selection.DisplayManager.constructor | ContentView.swift:262-266 | a new manager shows the fetched list, selects nothing and has asked for two rescans |
| Selection.DisplayManager.UpdateDisplays | ContentView.swift:272-282 | one more rescan; the fetched list is shown; the selection is untouched |
| Selection.DisplayManager.Toggle | ContentView.swift:316-320 | the selection becomes the toggled set, the list is untouched, and a valid selection stays valid when the id is listed |
| Selection.DisplayManager.DisplayReconfigured | ContentView.swift:285-298 | without the manager pointer nothing changes; otherwise the list is updated and the selection is empty |
| Thumbnails.ThumbnailCache.constructor | ContentView.swift:609-616 | the cache starts empty and within its bound |
| Thumbnails.ThumbnailCache.ImageFor | ContentView.swift:651-663 | a hit returns the cached image and changes nothing; a miss on an absent or undecodable file returns nothing and changes nothing; any other miss returns the decoded image and stores it, keeping only entries that were already there; at most 100 entries either way |
| Thumbnails.ThumbnailCache.ThumbnailSaved | ContentView.swift:633-641 | only the notified key is removed (nothing without a path), and `lastUpdate` increases |
| Thumbnails.ThumbnailCache.ThumbnailsGenerated | ContentView.swift:643-649 | the cache is empty and `lastUpdate` increases |
| Thumbnails.ThumbnailCache.ClearCache | ContentView.swift:665-668 | the cache is empty and `lastUpdate` increases |
| Thumbnails.ReadAfterSave | ContentView.swift:633-663 | after a file is reported saved, the next lookup returns what the disk now holds, not the stale cached image |
| ContentReload.Engine.constructor | ContentView.swift:687-689 | a fresh engine has recorded no calls and reports the given cache directory |
| ContentReload.Engine.Call | ContentView.swift:708-764 | each engine call is appended to the record |
| ContentReload.WallpaperViewModel.constructor | ContentView.swift:675-693 | no videos yet, and the current token is one no reload carries |
| ContentReload.WallpaperViewModel.ReloadContent | ContentView.swift:707-723 | the engine is asked to check the folder and the thumbnail cache is cleared; a failed listing stops there with videos and token unchanged; otherwise a fresh token becomes current and carries the listing's video files |
| ContentReload.WallpaperViewModel.CompleteReload | ContentView.swift:723-748 | publishes iff the token is current; `lastUpdate` never changes; a stale completion leaves videos, the recorded engine calls and the cache as they were; a current one publishes the derived items, caches only thumbnails that were cached or are on disk, and adds a `generateThumbnails` call at most once, only if some thumbnail is absent from disk, and always when some absent thumbnail was not cached |
| ContentReload.WallpaperViewModel.MissingThumbnails | ContentView.swift:741-745 | lookups add to the cache only files on disk; every item reported missing is absent from disk; every item absent from disk and not cached is reported |
| ContentReload.WallpaperViewModel.StartWallpaper | ContentView.swift:755-758 | the engine receives the video's path and the display ids |
| ContentReload.WallpaperViewModel.ClearCache | ContentView.swift:760-764 | `clearCache` then `checkFolderPath` are recorded and the thumbnail cache is empty; videos and folder stay; a failed listing leaves both tokens; otherwise a fresh token becomes current and the next one advances |
| ContentReload.LastRequestWins | ContentView.swift:707-748 | with two reloads in flight, the second one's items end up published whichever completes first, its token is current, and besides the two folder checks at most one `generateThumbnails` is recorded: the stale completion records nothing |
| ContentReload.FailedListingKeepsInFlight | ContentView.swift:713-738 | a reload whose listing fails does not stop an earlier in-flight reload from publishing |
| DisplayList.RuntimeMap | DisplayManager.h:193-197 | the runtime map's keys are exactly the screens' uuids |
| DisplayList.RuntimeLastWins | DisplayManager.h:193-197 | a uuid maps to the id of the last screen carrying it |
| DisplayList.UuidsAppend | DisplayManager.h:208-211 | the uuids of a list grown by one entry are the old ones plus that entry's |
| DisplayList.Survivors | DisplayManager.h:199-206 | definition: the entries the erase loop keeps, in list order; what it contains is stated by SurvivorsMembers and ErasedDaemonsExactly |
| DisplayList.ErasedDaemons | DisplayManager.h:199-206 | definition: the daemons the erase loop kills, in list order; what it contains is stated by ErasedDaemonsMembers and ErasedDaemonsExactly |
| DisplayList.SurvivorsMembers | DisplayManager.h:199-206 | the erase loop keeps exactly the entries whose uuid is attached, and no more entries than it started with |
| DisplayList.ErasedDaemonsExactly | DisplayManager.h:199-206 | kept plus killed accounts for every entry; no daemon is killed iff every uuid is attached, and then every entry is kept |
| DisplayList.ErasedDaemonsMembers | DisplayManager.h:199-202 | a pid is killed by the erase loop iff it is the daemon of an entry whose uuid is gone |
| DisplayList.Refreshed | DisplayManager.h:225-228 | the final loop keeps the list's length |
| DisplayList.ScanOutcome | DisplayManager.h:187-229 | definition of a scan's result: the refreshed survivors in their old order, then one fresh entry per newly attached uuid, each uuid once; ScanReconciles and ScanOfReconciledIsNoop state its consequences |
| DisplayList.ScanAssembles | DisplayManager.h:199-228 | refreshed survivors followed by fresh entries form a scan's outcome |
| DisplayList.ScanReconciles | DisplayManager.h:199-228 | after a scan every entry's uuid is attached with screen `runtime[uuid]`, and every attached uuid is listed, so the null-display branch is never taken |
| DisplayList.ScanOfReconciledIsNoop | DisplayManager.h:187-229 | scanning a list that already matches the same screens leaves it unchanged and kills nothing |
| DisplayList.FirstOnScreen | DisplayManager.h:234-235 | the index found is on the screen and no earlier entry is; `None` means no entry is on the screen |
| DisplayList.FirstOnScreenIs | DisplayManager.h:234-235 | the first entry on a screen is the one the search stops at |
| DisplayList.FirstOnScreenNone | DisplayManager.h:234-254 | with no entry on the screen, the search finds nothing |
| DisplayList.Signalled | DisplayManager.h:132-139 | the pids that get a signal are among those passed to a kill, so there are no more of them than kills; SignalledMembers says exactly which |
| DisplayList.SignalledMembers | DisplayManager.h:132-139 | a pid is signalled iff it was passed to a kill and is greater than 1 |
| DisplayList.SignalledAppend | DisplayManager.h:132-139 | the signals for two runs of kills are those of each run, in order |
| DisplayList.DisplayRegistry.constructor | DisplayManager.h:173 | the list starts empty and nothing has been killed |
| DisplayList.DisplayRegistry.KillProcessByPID | DisplayManager.h:132-162 | the call is recorded; a pid of 1 or less gets no signal and yields false; any other pid is signalled; the list is untouched |
| DisplayList.DisplayRegistry.ScanDisplays | DisplayManager.h:187-229 | survivors first, in their old order, with only their screen refreshed; then one entry per new uuid, each once, on its screen, with no paths; exactly the erased entries' daemons are killed, in list order |
| DisplayList.DisplayRegistry.EraseVanished | DisplayManager.h:199-206 | the list becomes the survivors and the erased daemons are killed in list order |
| DisplayList.DisplayRegistry.EraseAt | DisplayManager.h:201-202 | kills the entry's daemon, then removes just that entry |
| DisplayList.DisplayRegistry.CollectUuids | DisplayManager.h:208-211 | `existing` is the set of the retained entries' uuids |
| DisplayList.DisplayRegistry.AppendNew | DisplayManager.h:213-223 | the old entries stay in front; the appended ones are one per map uuid not in `existing`, with distinct uuids, on their screen, with no paths; nothing is killed |
| DisplayList.DisplayRegistry.RefreshScreens | DisplayManager.h:225-228 | each entry's screen becomes `runtime[uuid]`, or the null display for an unknown uuid; nothing else changes |
| DisplayList.DisplayRegistry.BuildRuntime | DisplayManager.h:190-197 | the loop builds exactly the runtime map |
| DisplayList.DisplayRegistry.SetWallpaperDisplay | DisplayManager.h:231-255 | the first entry on the screen takes the new daemon and paths, every other entry and the length stay, and the old daemon is killed iff it is non-zero; with no match exactly one entry is appended with the given screen, daemon and paths, and nothing is killed |

## Left out

- SwiftUI and AppKit presentation: views, layout, panels, menus and window setup carry no logic to state.
- The engine headers (`WallpaperEngine.h`, `DisplayObjc.h`, `SaveSystem.h`) are interfaces with no visible bodies. The engine is a recorder of four kinds of call together with a fixed cache directory. `getDisplays()` is an input list of screen ids.
- Dispatch queues and notification delivery: a reload is two explicit calls and the notifications are ordinary method calls. Thread safety and interleavings other than whole steps are not modelled.
- Selection.DisplayManager.UpdateDisplays: the Swift code assigns the fetched list on a later main-queue turn; here the assignment happens at once.
- Selection.DisplayManager.constructor: `init` reaches the same deferred assignment through `updateDisplays`; here the fetched list is shown at once.
- Selection.DisplayManager.DisplayReconfigured: the callback's `updateDisplays` defers its list assignment, so in the source the list changes after `removeAll()` empties the selection; here the list changes first. Both orders end with the fetched list and an empty selection.
- The quality-badge callback (`ContentView.swift:732`) writes into a captured copy of the item, so the model never sets `quality`.
- ContentReload.WallpaperViewModel.CompleteReload: the background `map` calls `thumbnailCachePath()` and `videoQualityBadge(for:)` once per file, before the token is compared (`ContentView.swift:727-732`). These calls are not recorded, for a stale completion as well. "Changes nothing" means nothing in the modelled state: videos, the four recorded kinds of engine call, the thumbnail cache and `lastUpdate`. `thumbnailCachePath()` is a constant of the engine here.
- `VideoItem.id`, a fresh `UUID()` used only as the grid's identity, is not modelled.
- `displayNameForDisplayID`, the uuid conversions and `GetCoreDisplayInfoFn` call into private frameworks and CoreFoundation. Uuids and display ids are inputs, including a uuid of "" when a conversion fails.
- DisplayList.DisplayRegistry.KillProcessByPID: signal delivery and the polling with `usleep` are OS timing behaviour. For a pid greater than 1 the result is left unspecified.
- DisplayList.DisplayRegistry.ScanDisplays: the daemon of an appended entry is left unspecified, because default-initialisation leaves it indeterminate. Appended entries come in an unspecified order (any order of the new uuids), because they follow `unordered_map` iteration.
- Thumbnails.ThumbnailCache.ImageFor: NSCache's choice of what to evict is not modelled. When the cache is full, an arbitrary entry is dropped before the new one is stored. The guarantees are the 100-entry bound, that the new key is present and that no foreign entry appears.
- `lastUpdate` is a counter, not a `Date`. Only the fact that each refresh changes it is modelled.
- Reload tokens are a counter, not `UUID()`s; only their freshness matters.
- Paths.Lowercased: only ASCII A-Z are lower-cased. This is exact for the comparison with "mp4" and "mov", since no other character lower-cases to one of their letters.
- Paths.AppendingPathComponent: NSString path normalisation beyond single '/' joining is not modelled, including collapsing repeated slashes and resolving "~". Listing entries are single path components.
- `loadSettings`, `loadDisplays`, `resetUserData`, `optimizeVideos`, the settings' other fields, UserDefaults persistence and the YAML save system are external stores or engine calls.
- Registering and removing the reconfiguration callback and the notification observers is not modelled.
- `PrintDisplays`, `waitForScreensReady` and the logging calls have no observable effect on this state.
