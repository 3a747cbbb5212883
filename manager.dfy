/**
 * `DisplayManager` itself: the published display list and error message,
 * and the operations that change them.  `CGDisplaySetDisplayMode` is
 * replaced by its outcome, a `CGError` raw value, and the queries made
 * after it by a `Hardware` snapshot.
 */
module Manager {
  import opened Wrappers
  import opened Decimal
  import opened Resolutions
  import opened Displays

  /** `kCGErrorSuccess`. */
  const Success := 0

  datatype Size = Size(width: int, height: int)

  /** `DisplayManager.defaultResolution`. */
  const DefaultSize := Size(1440, 900)
  /** `DisplayManager.moreSpaceResolution`. */
  const MoreSpaceSize := Size(1920, 1200)

  function FailureMessage(result: int): string {
    "Failed to set resolution (error: " + IntToString(result) + ")"
  }

  function NotAvailableMessage(target: Size): string {
    "Target resolution " + IntToString(target.width) + " × " + IntToString(target.height) + " not available"
  }

  /** `displays.firstIndex(where: { $0.id == displayID })`. */
  function FirstIndexOf(ds: seq<Display>, id: DisplayId): (k: Option<nat>)
    ensures k.None? <==> forall i :: 0 <= i < |ds| ==> ds[i].id != id
    ensures k.Some? ==> k.value < |ds| && ds[k.value].id == id &&
                        forall i :: 0 <= i < k.value ==> ds[i].id != id
  {
    if ds == [] then None
    else if ds[0].id == id then Some(0)
    else
      var k := FirstIndexOf(ds[1..], id);
      assert forall i :: 1 <= i < |ds| ==> ds[i] == ds[1..][i - 1];
      if k.Some? then Some(k.value + 1) else None
  }

  /**
   * The effect of `setResolution(_:for:)` whose mode switch returned
   * `result`: on success the error is cleared and only the first display
   * with that id is refreshed; on failure only the error message changes.
   */
  ghost predicate SetResolutionEffect(before: seq<Display>, id: DisplayId, result: int, hw: Hardware,
                                      after: seq<Display>, errorAfter: Option<string>)
  {
    if result != Success then
      after == before && errorAfter == Some(FailureMessage(result))
    else
      && errorAfter == None
      && match FirstIndexOf(before, id)
         case None => after == before
         case Some(k) =>
           && |after| == |before|
           && (forall j :: 0 <= j < |before| && j != k ==> after[j] == before[j])
           && RefreshedDisplay(hw, id, before[k].name, before[k].isBuiltIn, after[k])
  }

  /** `toggleResolution`'s target: the default size from "More Space" or from nothing, else "More Space". */
  function ToggleTarget(current: Option<Resolution>): (target: Size)
    ensures target == DefaultSize || target == MoreSpaceSize
    ensures current.Some? ==> target != Size(current.value.width, current.value.height)
    ensures target == DefaultSize <==>
              current.None? || Size(current.value.width, current.value.height) == MoreSpaceSize
  {
    match current
    case None => DefaultSize
    case Some(c) =>
      if c.width == MoreSpaceSize.width && c.height == MoreSpaceSize.height then DefaultSize
      else MoreSpaceSize
  }

  /** Toggling twice from either target size comes back to it. */
  lemma ToggleTargetAlternates(current: Resolution, next: Resolution)
    requires Size(current.width, current.height) in {DefaultSize, MoreSpaceSize}
    requires Size(next.width, next.height) == ToggleTarget(Some(current))
    ensures ToggleTarget(Some(next)) == Size(current.width, current.height)
  {
  }

  /** A successful or failed mode switch keeps every display's id, name, kind and position. */
  lemma SetResolutionKeepsLayout(before: seq<Display>, id: DisplayId, result: int, hw: Hardware,
                                 after: seq<Display>, errorAfter: Option<string>)
    requires SetResolutionEffect(before, id, result, hw, after, errorAfter)
    ensures |after| == |before|
    ensures forall i :: 0 <= i < |before| ==>
      after[i].id == before[i].id && after[i].name == before[i].name && after[i].isBuiltIn == before[i].isBuiltIn
  {
  }

  class DisplayManager {
    var displays: seq<Display>
    var errorMessage: Option<string>

    /** `init()`: registers for reconfiguration events (not modelled) and refreshes. */
    constructor (hw: Hardware)
      ensures RefreshedAs(hw, displays) && errorMessage == None
    {
      displays := [];
      errorMessage := None;
      new;
      Refresh(hw);
    }

    /** `refresh()`: rebuilds the display list from the current configuration. */
    method Refresh(hw: Hardware)
      modifies this
      ensures RefreshedAs(hw, displays)
      ensures errorMessage == old(errorMessage)
    {
      var newDisplays := BuildDisplays(hw);
      displays := newDisplays;
    }

    /**
     * `setResolution(_:for:)`.  `result` is what `CGDisplaySetDisplayMode`
     * returned for `resolution.mode`; `hw` is the configuration seen after it.
     */
    method SetResolution(resolution: Resolution, id: DisplayId, result: int, hw: Hardware)
      modifies this
      ensures SetResolutionEffect(old(displays), id, result, hw, displays, errorMessage)
    {
      if result == Success {
        errorMessage := None;
        var displayIndex := FirstIndexOf(displays, id);
        if displayIndex.Some? {
          var k := displayIndex.value;
          var display := displays[k];
          var updatedDisplay := RefreshDisplay(hw, id, display.name, display.isBuiltIn);
          displays := displays[k := updatedDisplay];
        }
      } else {
        errorMessage := Some(FailureMessage(result));
      }
    }

    /**
     * `toggleResolution()` on the first display.  `requested` is the
     * resolution handed to `setResolution`, if any; `result` and `hw` are
     * passed on to it.
     */
    method ToggleResolution(result: int, hw: Hardware) returns (ghost requested: Option<Resolution>)
      modifies this
      ensures old(displays) == [] ==>
        displays == old(displays) && errorMessage == old(errorMessage) && requested == None
      ensures old(displays) != [] ==>
        var first := old(displays)[0];
        var target := ToggleTarget(first.currentResolution);
        && requested == FindResolution(target.width, target.height, first.availableResolutions)
        && (requested.None? ==>
              && displays == old(displays)
              && errorMessage == if first.currentResolution.None? then old(errorMessage)
                                 else Some(NotAvailableMessage(target)))
        && (requested.Some? ==>
              SetResolutionEffect(old(displays), first.id, result, hw, displays, errorMessage))
    {
      requested := None;
      if displays == [] {
        return;
      }
      var firstDisplay := displays[0];
      if firstDisplay.currentResolution.None? {
        var defaultRes := FindResolution(DefaultSize.width, DefaultSize.height, firstDisplay.availableResolutions);
        if defaultRes.Some? {
          requested := defaultRes;
          SetResolution(defaultRes.value, firstDisplay.id, result, hw);
        }
        return;
      }
      var current := firstDisplay.currentResolution.value;
      var targetWidth, targetHeight;
      if current.width == MoreSpaceSize.width && current.height == MoreSpaceSize.height {
        targetWidth, targetHeight := DefaultSize.width, DefaultSize.height;
      } else {
        targetWidth, targetHeight := MoreSpaceSize.width, MoreSpaceSize.height;
      }
      var targetRes := FindResolution(targetWidth, targetHeight, firstDisplay.availableResolutions);
      if targetRes.Some? {
        requested := targetRes;
        SetResolution(targetRes.value, firstDisplay.id, result, hw);
      } else {
        errorMessage := Some(NotAvailableMessage(Size(targetWidth, targetHeight)));
      }
    }
  }
}
