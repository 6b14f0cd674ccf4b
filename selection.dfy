/**
 * The Swift `DisplayManager`: the display list shown in the dock and the set of
 * display ids the user selected, which the dock buttons toggle and the display
 * reconfiguration callback clears.
 */
module Selection {
  import opened Ids

  /** The selection after a dock button for `id` is pressed. */
  function Toggled(selected: set<DisplayID>, id: DisplayID): (r: set<DisplayID>)
    ensures id in r <==> id !in selected
    ensures forall x :: x != id ==> (x in r <==> x in selected)
  {
    if id in selected then selected - {id} else selected + {id}
  }

  /** Pressing the same button twice restores the selection. */
  lemma ToggleTwice(selected: set<DisplayID>, id: DisplayID)
    ensures Toggled(Toggled(selected, id), id) == selected
  {
  }

  class DisplayManager {
    /** The `screen` ids of the displays the dock shows, in the engine's order. */
    var displays: seq<DisplayID>
    var selectedDisplays: set<DisplayID>
    /** How many times the engine was asked to rescan the displays. */
    var scans: nat

    /** Every selected id names a display of the current list. */
    ghost predicate SelectionValid()
      reads this
    {
      forall x :: x in selectedDisplays ==> x in displays
    }

    /** `init`: a rescan, then `updateDisplays` (a second rescan and a fetch). */
    constructor (fetched: seq<DisplayID>)
      ensures displays == fetched && selectedDisplays == {} && scans == 2
      ensures SelectionValid()
    {
      displays := fetched;
      selectedDisplays := {};
      scans := 2;
    }

    /** `updateDisplays`: rescan through the engine and show the list it hands back. */
    method UpdateDisplays(fetched: seq<DisplayID>)
      modifies this
      ensures scans == old(scans) + 1
      ensures displays == fetched
      ensures selectedDisplays == old(selectedDisplays)
    {
      scans := scans + 1;
      displays := fetched;
    }

    /** The dock button of display `id`: flips that id's membership and no other. */
    method Toggle(id: DisplayID)
      modifies this
      ensures selectedDisplays == Toggled(old(selectedDisplays), id)
      ensures displays == old(displays) && scans == old(scans)
      ensures old(SelectionValid()) && id in displays ==> SelectionValid()
    {
      if id in selectedDisplays {
        selectedDisplays := selectedDisplays - {id};
      } else {
        selectedDisplays := selectedDisplays + {id};
      }
    }

    /**
     * `displayReconfigCallback`: without the registered manager pointer it does nothing;
     * otherwise it updates the displays and empties the selection.
     */
    method DisplayReconfigured(hasUserInfo: bool, fetched: seq<DisplayID>)
      modifies this
      ensures !hasUserInfo ==> displays == old(displays) && selectedDisplays == old(selectedDisplays) && scans == old(scans)
      ensures hasUserInfo ==> displays == fetched && selectedDisplays == {} && scans == old(scans) + 1
      ensures hasUserInfo ==> SelectionValid()
    {
      if !hasUserInfo {
        return;
      }
      UpdateDisplays(fetched);
      selectedDisplays := {};
    }
  }
}
