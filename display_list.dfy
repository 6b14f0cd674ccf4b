/**
 * The C++ display registry: the global `std::list<Display> displays`, reconciled
 * against the attached screens by `ScanDisplays` and updated by `SetWallpaperDisplay`.
 * Killing a daemon goes through `KillProcessByPID`, whose calls are recorded.
 */
module DisplayList {
  import opened Wrappers
  import opened Ids

  /** `struct Display`: a wallpaper daemon bound to one screen. */
  datatype Display = Display(daemon: Pid, screen: DisplayID, uuid: string, videoPath: string, framePath: string)

  /** An attached `NSScreen`: its display id and the uuid string `DisplayUUIDFromID` gives for it. */
  datatype Screen = Screen(id: DisplayID, uuid: string)

  /** The `runtime` map built from the screens in order: a later screen with the same uuid wins. */
  function RuntimeMap(screens: seq<Screen>): (rt: map<string, DisplayID>)
    ensures rt.Keys == set s | s in screens :: s.uuid
  {
    if screens == [] then map[]
    else
      var last := screens[|screens| - 1];
      RuntimeMap(screens[..|screens| - 1])[last.uuid := last.id]
  }

  /** A uuid maps to the id of the last screen that carries it. */
  lemma {:induction false} RuntimeLastWins(screens: seq<Screen>, i: nat)
    requires i < |screens|
    requires forall j :: i < j < |screens| ==> screens[j].uuid != screens[i].uuid
    ensures RuntimeMap(screens)[screens[i].uuid] == screens[i].id
  {
    if i < |screens| - 1 {
      var init := screens[..|screens| - 1];
      RuntimeLastWins(init, i);
    }
  }

  /** The uuids of a list of entries. */
  function Uuids(ds: seq<Display>): set<string>
  {
    set d | d in ds :: d.uuid
  }

  lemma UuidsAppend(ds: seq<Display>, d: Display)
    ensures Uuids(ds + [d]) == Uuids(ds) + {d.uuid}
  {
    forall u | u in Uuids(ds + [d])
      ensures u in Uuids(ds) + {d.uuid}
    {
      var e :| e in ds + [d] && e.uuid == u;
    }
    forall u | u in Uuids(ds) + {d.uuid}
      ensures u in Uuids(ds + [d])
    {
      if u == d.uuid {
        assert d in ds + [d];
      } else {
        var e :| e in ds && e.uuid == u;
        assert e in ds + [d];
      }
    }
  }

  lemma EntryUuidListed(ds: seq<Display>, i: nat)
    requires i < |ds|
    ensures ds[i].uuid in Uuids(ds)
  {
    assert ds[i] in ds;
  }

  lemma NoUuidsNoEntries(ds: seq<Display>)
    requires Uuids(ds) == {}
    ensures ds == []
  {
    if ds != [] {
      EntryUuidListed(ds, 0);
      assert false;
    }
  }

  /** The entries the erase loop keeps: those whose uuid is still attached, in list order. */
  function Survivors(ds: seq<Display>, rt: map<string, DisplayID>): seq<Display>
  {
    if ds == [] then []
    else
      var last := ds[|ds| - 1];
      Survivors(ds[..|ds| - 1], rt) + (if last.uuid in rt then [last] else [])
  }

  /** The erase loop keeps exactly the entries whose uuid is still attached. */
  lemma {:induction false} SurvivorsMembers(ds: seq<Display>, rt: map<string, DisplayID>)
    ensures |Survivors(ds, rt)| <= |ds|
    ensures forall d :: d in Survivors(ds, rt) <==> d in ds && d.uuid in rt
  {
    if ds != [] {
      var init := ds[..|ds| - 1];
      SurvivorsMembers(init, rt);
      assert ds == init + [ds[|ds| - 1]];
    }
  }

  /** The daemons of the entries the erase loop removes, in list order. */
  function ErasedDaemons(ds: seq<Display>, rt: map<string, DisplayID>): seq<Pid>
  {
    if ds == [] then []
    else
      var last := ds[|ds| - 1];
      ErasedDaemons(ds[..|ds| - 1], rt) + (if last.uuid in rt then [] else [last.daemon])
  }

  /** An entry's daemon is killed by the erase loop exactly when its uuid is gone; with no uuid gone nothing is. */
  lemma {:induction false} ErasedDaemonsExactly(ds: seq<Display>, rt: map<string, DisplayID>)
    ensures |Survivors(ds, rt)| + |ErasedDaemons(ds, rt)| == |ds|
    ensures (forall d :: d in ds ==> d.uuid in rt) <==> ErasedDaemons(ds, rt) == []
    ensures (forall d :: d in ds ==> d.uuid in rt) ==> Survivors(ds, rt) == ds
  {
    if ds != [] {
      var init := ds[..|ds| - 1];
      ErasedDaemonsExactly(init, rt);
      assert ds == init + [ds[|ds| - 1]];
      if forall d :: d in init ==> d.uuid in rt {
        assert ds[|ds| - 1] in ds;
      }
    }
  }

  /** A pid is passed to a kill by the erase loop exactly when it is the daemon of an entry whose uuid is gone. */
  lemma {:induction false} ErasedDaemonsMembers(ds: seq<Display>, rt: map<string, DisplayID>)
    ensures forall p :: p in ErasedDaemons(ds, rt) <==> exists d :: d in ds && d.uuid !in rt && d.daemon == p
  {
    if ds != [] {
      var init := ds[..|ds| - 1];
      var last := ds[|ds| - 1];
      ErasedDaemonsMembers(init, rt);
      assert ds == init + [last];
      forall p | exists d :: d in ds && d.uuid !in rt && d.daemon == p
        ensures p in ErasedDaemons(ds, rt)
      {
        var d :| d in ds && d.uuid !in rt && d.daemon == p;
        if d != last {
          assert d in init;
        }
      }
    }
  }

  /** One step of the erase loop: entry `i` joins the kept entries or the erased daemons. */
  lemma EraseStep(done: seq<Display>, d: Display, rt: map<string, DisplayID>)
    ensures Survivors(done + [d], rt) == Survivors(done, rt) + (if d.uuid in rt then [d] else [])
    ensures ErasedDaemons(done + [d], rt) == ErasedDaemons(done, rt) + (if d.uuid in rt then [] else [d.daemon])
  {
    assert (done + [d])[..|done|] == done;
  }

  /** Splitting a list around the element at position `|front|`. */
  lemma SplitAt(front: seq<Display>, back: seq<Display>)
    requires back != []
    ensures (front + back)[|front|] == back[0]
    ensures (front + back)[..|front|] + (front + back)[|front| + 1..] == front + back[1..]
    ensures front + back == (front + [back[0]]) + back[1..]
  {
    assert (front + back)[..|front|] == front;
    assert (front + back)[|front| + 1..] == back[1..];
  }

  /** The final loop: every entry's screen set from the runtime map, `kCGNullDirectDisplay` for a uuid it lacks. */
  function Refreshed(ds: seq<Display>, rt: map<string, DisplayID>): (r: seq<Display>)
    ensures |r| == |ds|
  {
    seq(|ds|, i requires 0 <= i < |ds| =>
          ds[i].(screen := if ds[i].uuid in rt then rt[ds[i].uuid] else NullDisplay))
  }

  /** Entries appended for new uuids: one per uuid of the map not already listed, each on its screen, with no paths. */
  predicate FreshEntries(added: seq<Display>, rt: map<string, DisplayID>, existing: set<string>)
  {
    && (forall i, j :: 0 <= i < j < |added| ==> added[i].uuid != added[j].uuid)
    && Uuids(added) == rt.Keys - existing
    && (forall d :: d in added ==>
          d.uuid in rt && d.screen == rt[d.uuid] && d.videoPath == "" && d.framePath == "")
  }

  /**
   * What `ScanDisplays` leaves: the retained entries first, in their old order, with only their
   * screen refreshed, followed by one fresh entry per newly attached uuid in some order.
   */
  predicate ScanOutcome(before: seq<Display>, rt: map<string, DisplayID>, after: seq<Display>)
  {
    var kept := Survivors(before, rt);
    && |kept| <= |after|
    && after[..|kept|] == Refreshed(kept, rt)
    && FreshEntries(after[|kept|..], rt, Uuids(kept))
  }

  /** Refreshing the retained entries followed by the fresh ones gives a scan's outcome. */
  lemma ScanAssembles(before: seq<Display>, rt: map<string, DisplayID>, added: seq<Display>)
    requires FreshEntries(added, rt, Uuids(Survivors(before, rt)))
    ensures ScanOutcome(before, rt, Refreshed(Survivors(before, rt) + added, rt))
  {
    var kept := Survivors(before, rt);
    var after := Refreshed(kept + added, rt);
    assert after[..|kept|] == Refreshed(kept, rt);
    assert after[|kept|..] == added by {
      forall i | 0 <= i < |added|
        ensures after[|kept| + i] == added[i]
      {
        assert (kept + added)[|kept| + i] == added[i];
        assert added[i] in added;
      }
    }
  }

  /** The list matches the screens: every entry's uuid is attached and its screen is that uuid's id, and every attached uuid is listed. */
  predicate Reconciled(ds: seq<Display>, rt: map<string, DisplayID>)
  {
    && (forall d :: d in ds ==> d.uuid in rt && d.screen == rt[d.uuid])
    && rt.Keys <= Uuids(ds)
  }

  /** After a scan the list matches the screens, so the `kCGNullDirectDisplay` branch is never taken. */
  lemma ScanReconciles(before: seq<Display>, rt: map<string, DisplayID>, after: seq<Display>)
    requires ScanOutcome(before, rt, after)
    ensures Reconciled(after, rt)
  {
    var kept := Survivors(before, rt);
    SurvivorsMembers(before, rt);
    var added := after[|kept|..];
    assert after == after[..|kept|] + added;
    forall d | d in after
      ensures d.uuid in rt && d.screen == rt[d.uuid]
    {
      if d in after[..|kept|] {
        var i :| 0 <= i < |kept| && after[..|kept|][i] == d;
        assert kept[i] in kept;
      } else {
        assert d in added;
      }
    }
    forall u | u in rt.Keys
      ensures u in Uuids(after)
    {
      if u in Uuids(kept) {
        var d :| d in kept && d.uuid == u;
        var i :| 0 <= i < |kept| && kept[i] == d;
        assert after[i] == after[..|kept|][i];
        assert after[i].uuid == u;
      } else {
        assert u in Uuids(added);
        var d :| d in added && d.uuid == u;
        assert d in after;
      }
    }
  }

  /** Scanning a list that already matches the same screens changes nothing and kills nothing. */
  lemma ScanOfReconciledIsNoop(ds: seq<Display>, rt: map<string, DisplayID>, after: seq<Display>)
    requires Reconciled(ds, rt)
    requires ScanOutcome(ds, rt, after)
    ensures after == ds
    ensures ErasedDaemons(ds, rt) == []
  {
    ErasedDaemonsExactly(ds, rt);
    assert Survivors(ds, rt) == ds;
    var added := after[|ds|..];
    assert Uuids(added) == {};
    NoUuidsNoEntries(added);
    assert Refreshed(ds, rt) == ds;
    assert after == after[..|ds|] + added;
  }

  /** The index of the first entry on screen `id`, if any. */
  function FirstOnScreen(ds: seq<Display>, id: DisplayID): (r: Option<nat>)
    ensures r.Some? ==> r.value < |ds| && ds[r.value].screen == id
    ensures r.Some? ==> forall k :: 0 <= k < r.value ==> ds[k].screen != id
    ensures r.None? ==> forall k :: 0 <= k < |ds| ==> ds[k].screen != id
  {
    if ds == [] then None
    else if ds[0].screen == id then Some(0)
    else match FirstOnScreen(ds[1..], id)
      case Some(i) => Some(i + 1)
      case None => None
  }

  /** The pids among `pids` that pass the `pid <= 1` guard and are signalled, in order. */
  function Signalled(pids: seq<Pid>): (sent: seq<Pid>)
    ensures |sent| <= |pids|
  {
    if pids == [] then []
    else
      var last := pids[|pids| - 1];
      Signalled(pids[..|pids| - 1]) + (if last > 1 then [last] else [])
  }

  /** A pid is signalled exactly when it was passed to a kill and is greater than 1. */
  lemma {:induction false} SignalledMembers(pids: seq<Pid>)
    ensures forall p :: p in Signalled(pids) <==> p in pids && p > 1
  {
    if pids != [] {
      var init := pids[..|pids| - 1];
      SignalledMembers(init);
      assert pids == init + [pids[|pids| - 1]];
    }
  }

  /** The signals of two runs of kills are those of each run, in order. */
  lemma {:induction false} SignalledAppend(a: seq<Pid>, b: seq<Pid>)
    ensures Signalled(a + b) == Signalled(a) + Signalled(b)
    decreases |b|
  {
    if b != [] {
      var init := b[..|b| - 1];
      SignalledAppend(a, init);
      assert (a + b)[..|a + b| - 1] == a + init;
    } else {
      assert a + b == a;
    }
  }

  /** The entries of the list, and the `KillProcessByPID` calls made so far. */
  class DisplayRegistry {
    var displays: seq<Display>
    /** The pid of every `KillProcessByPID` call, in call order. */
    var kills: seq<Pid>
    /** The pids actually sent a signal. */
    var signalled: seq<Pid>

    /** A signal is sent for exactly the killed pids that pass the guard. */
    ghost predicate Valid()
      reads this
    {
      signalled == Signalled(kills)
    }

    constructor ()
      ensures Valid()
      ensures displays == [] && kills == [] && signalled == []
    {
      displays := [];
      kills := [];
      signalled := [];
    }

    /**
     * `KillProcessByPID`: a pid of 1 or less is refused without any signal. Otherwise
     * the process is signalled; whether it is seen to exit is up to the system.
     */
    method KillProcessByPID(pid: Pid) returns (ok: bool)
      requires Valid()
      modifies this
      ensures Valid()
      ensures displays == old(displays)
      ensures kills == old(kills) + [pid]
      ensures signalled == old(signalled) + (if pid > 1 then [pid] else [])
      ensures pid <= 1 ==> !ok
    {
      assert (kills + [pid])[..|kills|] == kills;
      kills := kills + [pid];
      if pid <= 1 {
        return false;
      }
      signalled := signalled + [pid];
      ok := *;
    }

    /**
     * `ScanDisplays`, given the attached screens. The daemon field of an appended entry is
     * left unspecified, as default-initialisation leaves it, and the appended entries come
     * in the runtime map's unspecified iteration order.
     */
    method ScanDisplays(screens: seq<Screen>)
      requires Valid()
      modifies this
      ensures Valid()
      ensures ScanOutcome(old(displays), RuntimeMap(screens), displays)
      ensures kills == old(kills) + ErasedDaemons(old(displays), RuntimeMap(screens))
    {
      var runtime := BuildRuntime(screens);
      ghost var before := displays;
      EraseVanished(runtime);
      ghost var kept := displays;
      var existing := CollectUuids(displays);
      AppendNew(runtime, existing);
      ghost var added := displays[|kept|..];
      assert displays == kept + added;
      RefreshScreens(runtime);
      ScanAssembles(before, runtime, added);
    }

    /** The erase loop: walks the list with an iterator, killing and erasing each entry whose uuid is gone. */
    method EraseVanished(rt: map<string, DisplayID>)
      requires Valid()
      modifies this
      ensures Valid()
      ensures displays == Survivors(old(displays), rt)
      ensures kills == old(kills) + ErasedDaemons(old(displays), rt)
    {
      ghost var done: seq<Display> := [];
      ghost var rest := displays;
      ghost var kept: seq<Display> := [];
      ghost var erased: seq<Pid> := [];
      var it := 0;
      while it < |displays|
        invariant old(displays) == done + rest
        invariant kept == Survivors(done, rt) && erased == ErasedDaemons(done, rt)
        invariant displays == kept + rest && it == |kept|
        invariant kills == old(kills) + erased
        invariant Valid()
        decreases |rest|
      {
        ghost var d := rest[0];
        EraseStep(done, d, rt);
        SplitAt(done, rest);
        SplitAt(kept, rest);
        if displays[it].uuid !in rt {
          EraseAt(it);
          erased := erased + [d.daemon];
        } else {
          it := it + 1;
          kept := kept + [d];
        }
        done := done + [d];
        rest := rest[1..];
      }
      assert done + [] == done;
    }

    method EraseAt(it: nat)
      requires Valid() && it < |displays|
      modifies this
      ensures Valid()
      ensures displays == old(displays)[..it] + old(displays)[it + 1..]
      ensures kills == old(kills) + [old(displays)[it].daemon]
    {
      var _ := KillProcessByPID(displays[it].daemon);
      displays := displays[..it] + displays[it + 1..];
    }

    /** The `existing` set: the uuids of the retained entries. */
    static method CollectUuids(ds: seq<Display>) returns (existing: set<string>)
      ensures existing == Uuids(ds)
    {
      existing := {};
      for i := 0 to |ds|
        invariant existing == Uuids(ds[..i])
      {
        assert ds[..i + 1] == ds[..i] + [ds[i]];
        existing := existing + {ds[i].uuid};
      }
      assert ds[..|ds|] == ds;
    }

    /** The append loop: one fresh entry at the back for each uuid of the map not in `existing`. */
    method AppendNew(rt: map<string, DisplayID>, existing: set<string>)
      requires Valid()
      modifies this
      ensures Valid()
      ensures |displays| >= |old(displays)| && displays[..|old(displays)|] == old(displays)
      ensures FreshEntries(displays[|old(displays)|..], rt, existing)
      ensures kills == old(kills)
    {
      ghost var added: seq<Display> := [];
      var todo := rt.Keys;
      while todo != {}
        invariant todo <= rt.Keys
        invariant displays == old(displays) + added
        invariant kills == old(kills) && signalled == old(signalled)
        invariant forall i, j :: 0 <= i < j < |added| ==> added[i].uuid != added[j].uuid
        invariant Uuids(added) == (rt.Keys - todo) - existing
        invariant forall d :: d in added ==>
                    d.uuid in rt && d.screen == rt[d.uuid] && d.videoPath == "" && d.framePath == ""
        decreases todo
      {
        var uuid :| uuid in todo;
        if uuid !in existing {
          var daemon: Pid := *;
          var d := Display(daemon, rt[uuid], uuid, "", "");
          assert uuid !in Uuids(added);
          UuidsAppend(added, d);
          displays := displays + [d];
          added := added + [d];
        }
        assert (rt.Keys - (todo - {uuid})) - existing ==
               ((rt.Keys - todo) - existing) + (if uuid in existing then {} else {uuid});
        todo := todo - {uuid};
      }
      assert displays[|old(displays)|..] == added;
    }

    /** The final loop: each entry's screen is looked up again by its uuid. */
    method RefreshScreens(rt: map<string, DisplayID>)
      requires Valid()
      modifies this
      ensures Valid()
      ensures displays == Refreshed(old(displays), rt)
      ensures kills == old(kills)
    {
      for i := 0 to |displays|
        invariant |displays| == |old(displays)|
        invariant forall k :: 0 <= k < i ==> displays[k] == Refreshed(old(displays), rt)[k]
        invariant forall k :: i <= k < |displays| ==> displays[k] == old(displays)[k]
        invariant kills == old(kills) && signalled == old(signalled)
      {
        var d := displays[i];
        var screen := if d.uuid in rt then rt[d.uuid] else NullDisplay;
        displays := displays[i := d.(screen := screen)];
      }
    }

    /** The loop that builds `runtime` from the screens. */
    static method BuildRuntime(screens: seq<Screen>) returns (runtime: map<string, DisplayID>)
      ensures runtime == RuntimeMap(screens)
    {
      runtime := map[];
      for i := 0 to |screens|
        invariant runtime == RuntimeMap(screens[..i])
      {
        assert screens[..i + 1][..i] == screens[..i];
        runtime := runtime[screens[i].uuid := screens[i].id];
      }
      assert screens[..|screens|] == screens;
    }

    /**
     * `SetWallpaperDisplay`: the first entry on `displayID` takes the new daemon and paths,
     * its old daemon killed first when it is non-zero; with no entry on that screen a new
     * entry (with an empty uuid) is appended.
     */
    method SetWallpaperDisplay(daemon: Pid, displayID: DisplayID, videoPath: string, framePath: string)
      requires Valid()
      modifies this
      ensures Valid()
      ensures match FirstOnScreen(old(displays), displayID)
        case Some(i) =>
          && displays == old(displays)[i := old(displays)[i].(daemon := daemon, videoPath := videoPath, framePath := framePath)]
          && kills == old(kills) + (if old(displays)[i].daemon != 0 then [old(displays)[i].daemon] else [])
        case None =>
          && displays == old(displays) + [Display(daemon, displayID, "", videoPath, framePath)]
          && kills == old(kills)
    {
      var i := 0;
      while i < |displays|
        invariant 0 <= i <= |displays|
        invariant displays == old(displays) && kills == old(kills) && signalled == old(signalled)
        invariant forall k :: 0 <= k < i ==> displays[k].screen != displayID
      {
        if displays[i].screen == displayID {
          FirstOnScreenIs(displays, displayID, i);
          var previous := displays[i].daemon;
          if previous != 0 {
            var _ := KillProcessByPID(previous);
          }
          displays := displays[i := displays[i].(daemon := daemon, videoPath := videoPath, framePath := framePath)];
          return;
        }
        i := i + 1;
      }
      FirstOnScreenNone(displays, displayID);
      displays := displays + [Display(daemon, displayID, "", videoPath, framePath)];
    }
  }

  /** The first entry on a screen is the one the forward search stops at. */
  lemma FirstOnScreenIs(ds: seq<Display>, id: DisplayID, i: nat)
    requires i < |ds| && ds[i].screen == id
    requires forall k :: 0 <= k < i ==> ds[k].screen != id
    ensures FirstOnScreen(ds, id) == Some(i)
  {
  }

  /** With no entry on the screen the search finds nothing. */
  lemma FirstOnScreenNone(ds: seq<Display>, id: DisplayID)
    requires forall k :: 0 <= k < |ds| ==> ds[k].screen != id
    ensures FirstOnScreen(ds, id) == None
  {
  }
}
