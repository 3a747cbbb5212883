/**
 * The display list of `DisplayManager`: which displays there are, in which
 * order, what they are called, and what `refreshDisplay` records for each.
 * The CoreGraphics and AppKit queries are replaced by a `Hardware` snapshot
 * that answers them.
 */
module Displays {
  import opened Wrappers
  import opened Decimal
  import opened Resolutions
  import opened Available

  /** `CGDirectDisplayID`, a `UInt32`. */
  type DisplayId = n: nat | n < 0x1_0000_0000

  /** The capacity of the buffer handed to `CGGetOnlineDisplayList`. */
  const MaxDisplays := 32

  /** What the system answers about one display. */
  datatype DisplayInfo = DisplayInfo(
    isBuiltIn: bool,             // CGDisplayIsBuiltin(id) != 0
    native: NativeSize,          // CGDisplayPixelsWide(id), CGDisplayPixelsHigh(id)
    currentMode: Option<Mode>,   // CGDisplayCopyDisplayMode(id)
    modes: Option<seq<Mode>>,    // CGDisplayCopyAllDisplayModes(id, options)
    screenName: Option<string>)  // localizedName of the NSScreen whose NSScreenNumber is id

  /**
   * A snapshot of the display configuration: the online list (`None` when
   * `CGGetOnlineDisplayList` fails) and what each display reports.
   */
  datatype Hardware = Hardware(onlineList: Option<seq<DisplayId>>, info: map<DisplayId, DisplayInfo>)

  /** CoreGraphics' answers for an id it does not know. */
  const Unknown := DisplayInfo(false, NativeSize(0, 0), None, None, None)

  function InfoOf(hw: Hardware, id: DisplayId): DisplayInfo {
    if id in hw.info then hw.info[id] else Unknown
  }

  predicate IsBuiltIn(hw: Hardware, id: DisplayId) {
    InfoOf(hw, id).isBuiltIn
  }

  /** `getAllDisplays()`: at most 32 ids, none when the call fails. */
  function OnlineDisplays(hw: Hardware): seq<DisplayId> {
    match hw.onlineList
    case None => []
    case Some(list) => if |list| <= MaxDisplays then list else list[..MaxDisplays]
  }

  /** The comparator `refresh` sorts with: built-in before external, then ascending ids. */
  predicate DisplayPrecedes(hw: Hardware, id1: DisplayId, id2: DisplayId) {
    var isBuiltIn1, isBuiltIn2 := IsBuiltIn(hw, id1), IsBuiltIn(hw, id2);
    if isBuiltIn1 && !isBuiltIn2 then true
    else if !isBuiltIn1 && isBuiltIn2 then false
    else id1 < id2
  }

  predicate SortedDisplayIds(hw: Hardware, ids: seq<DisplayId>) {
    forall i, j :: 0 <= i < j < |ids| ==> !DisplayPrecedes(hw, ids[j], ids[i])
  }

  /** Putting an id that nothing in the list precedes in front keeps the list sorted. */
  lemma PrependSortedId(hw: Hardware, id: DisplayId, ids: seq<DisplayId>)
    requires SortedDisplayIds(hw, ids)
    requires ids == [] || !DisplayPrecedes(hw, ids[0], id)
    ensures SortedDisplayIds(hw, [id] + ids)
  {
  }

  function InsertDisplayId(hw: Hardware, id: DisplayId, ids: seq<DisplayId>): (out: seq<DisplayId>)
    requires SortedDisplayIds(hw, ids)
    ensures SortedDisplayIds(hw, out)
    ensures multiset(out) == multiset(ids) + multiset{id}
    ensures out[0] == id || out[0] == ids[0]
  {
    if ids == [] || !DisplayPrecedes(hw, ids[0], id) then PrependSortedId(hw, id, ids); [id] + ids
    else
      var rest := InsertDisplayId(hw, id, ids[1..]);
      assert ids == [ids[0]] + ids[1..];
      PrependSortedId(hw, ids[0], rest);
      [ids[0]] + rest
  }

  /** `displayIDs.sorted { ... }`, as an insertion sort. */
  function SortDisplayIds(hw: Hardware, ids: seq<DisplayId>): (out: seq<DisplayId>)
    ensures SortedDisplayIds(hw, out) && multiset(out) == multiset(ids)
  {
    if ids == [] then []
    else
      assert ids == [ids[0]] + ids[1..];
      InsertDisplayId(hw, ids[0], SortDisplayIds(hw, ids[1..]))
  }

  /** `getDisplayName`: the screen's own name, else a generic one. */
  function DisplayName(screenName: Option<string>, isBuiltIn: bool, externalIndex: int): string {
    match screenName
    case Some(name) => name
    case None => if isBuiltIn then "Built-in" else "External Display " + IntToString(externalIndex)
  }

  /** `DisplayManager.Display`. */
  datatype Display = Display(id: DisplayId, name: string, isBuiltIn: bool,
                             currentResolution: Option<Resolution>,
                             availableResolutions: seq<Resolution>)

  function CurrentResolution(info: DisplayInfo): Option<Resolution> {
    match info.currentMode
    case None => None
    case Some(mode) => Some(ResolutionOf(mode))
  }

  /** What `refreshDisplay(displayID:name:isBuiltIn:)` may return. */
  ghost predicate RefreshedDisplay(hw: Hardware, id: DisplayId, name: string, isBuiltIn: bool, d: Display) {
    var info := InfoOf(hw, id);
    && d.id == id && d.name == name && d.isBuiltIn == isBuiltIn
    && d.currentResolution == CurrentResolution(info)
    && AvailableFor(isBuiltIn, info.native, info.modes, d.availableResolutions)
  }

  /** `refreshDisplay`: reads the display's current and available resolutions. */
  method RefreshDisplay(hw: Hardware, id: DisplayId, name: string, isBuiltIn: bool) returns (d: Display)
    ensures RefreshedDisplay(hw, id, name, isBuiltIn, d)
  {
    var info := InfoOf(hw, id);
    var currentResolution: Option<Resolution> := None;
    if info.currentMode.Some? {
      currentResolution := Some(ResolutionOf(info.currentMode.value));
    }
    var availableResolutions := AvailableResolutions(isBuiltIn, info.native, info.modes);
    d := Display(id, name, isBuiltIn, currentResolution, availableResolutions);
  }

  function ExternalCount(ds: seq<Display>): nat {
    if ds == [] then 0
    else ExternalCount(ds[..|ds| - 1]) + (if ds[|ds| - 1].isBuiltIn then 0 else 1)
  }

  /** The `externalIndex` `refresh` gives the display at position `i`: 0 when built in. */
  function ExternalIndex(ds: seq<Display>, i: nat): nat
    requires i < |ds|
  {
    if ds[i].isBuiltIn then 0 else ExternalCount(ds[..i + 1])
  }

  function DisplayIds(ds: seq<Display>): seq<DisplayId> {
    seq(|ds|, i requires 0 <= i < |ds| => ds[i].id)
  }

  /** `d` is display `id`, refreshed and named by `getDisplayName` with external index `index`. */
  ghost predicate NamedAndRefreshed(hw: Hardware, id: DisplayId, index: int, d: Display) {
    RefreshedDisplay(hw, id, DisplayName(InfoOf(hw, id).screenName, IsBuiltIn(hw, id), index), IsBuiltIn(hw, id), d)
  }

  /** Entry `i` of `ds` is display `order[i]`, named with its external index and refreshed. */
  ghost predicate RefreshedEntry(hw: Hardware, order: seq<DisplayId>, ds: seq<Display>, i: nat)
    requires i < |order| && i < |ds|
  {
    NamedAndRefreshed(hw, order[i], ExternalIndex(ds, i), ds[i])
  }

  /**
   * What `refresh` may store in `displays`: one entry per online id, in the
   * comparator's order, each named with its external index and refreshed.
   */
  ghost predicate RefreshedAs(hw: Hardware, ds: seq<Display>) {
    var order := SortDisplayIds(hw, OnlineDisplays(hw));
    && |ds| == |order|
    && forall i :: 0 <= i < |ds| ==> RefreshedEntry(hw, order, ds, i)
  }

  /** Appending a display leaves the external indices, and so the entries, before it unchanged. */
  lemma AppendKeepsEntries(hw: Hardware, order: seq<DisplayId>, ds: seq<Display>, d: Display)
    requires |ds| < |order|
    requires forall i :: 0 <= i < |ds| ==> RefreshedEntry(hw, order, ds, i)
    ensures forall i :: 0 <= i < |ds| ==> RefreshedEntry(hw, order, ds + [d], i)
  {
    forall i | 0 <= i < |ds|
      ensures RefreshedEntry(hw, order, ds + [d], i)
    {
      assert RefreshedEntry(hw, order, ds, i);
      assert (ds + [d])[i] == ds[i];
      assert (ds + [d])[..i + 1] == ds[..i + 1];
      assert ExternalIndex(ds + [d], i) == ExternalIndex(ds, i);
    }
  }

  lemma ExternalCountAppend(ds: seq<Display>, d: Display)
    ensures ExternalCount(ds + [d]) == ExternalCount(ds) + if d.isBuiltIn then 0 else 1
    ensures ExternalIndex(ds + [d], |ds|) == if d.isBuiltIn then 0 else ExternalCount(ds) + 1
  {
    assert (ds + [d])[..|ds|] == ds;
    assert (ds + [d])[..|ds| + 1] == ds + [d];
  }

  /** A display refreshed under the name its position calls for becomes the next entry. */
  lemma AppendEntry(hw: Hardware, order: seq<DisplayId>, ds: seq<Display>, d: Display)
    requires |ds| < |order|
    requires d.isBuiltIn == IsBuiltIn(hw, order[|ds|])
    requires NamedAndRefreshed(hw, order[|ds|], if d.isBuiltIn then 0 else ExternalCount(ds) + 1, d)
    ensures RefreshedEntry(hw, order, ds + [d], |ds|)
    ensures ExternalCount(ds + [d]) == ExternalCount(ds) + if d.isBuiltIn then 0 else 1
  {
    ExternalCountAppend(ds, d);
    assert (ds + [d])[|ds|] == d;
    assert ExternalIndex(ds + [d], |ds|) == if d.isBuiltIn then 0 else ExternalCount(ds) + 1;
  }

  /** Appending the next refreshed display extends a correct prefix of the list. */
  lemma ExtendRefreshed(hw: Hardware, order: seq<DisplayId>, ds: seq<Display>, d: Display)
    requires |ds| < |order|
    requires forall i :: 0 <= i < |ds| ==> RefreshedEntry(hw, order, ds, i)
    requires d.isBuiltIn == IsBuiltIn(hw, order[|ds|])
    requires NamedAndRefreshed(hw, order[|ds|], if d.isBuiltIn then 0 else ExternalCount(ds) + 1, d)
    ensures forall i :: 0 <= i < |ds| + 1 ==> RefreshedEntry(hw, order, ds + [d], i)
    ensures ExternalCount(ds + [d]) == ExternalCount(ds) + if d.isBuiltIn then 0 else 1
  {
    AppendKeepsEntries(hw, order, ds, d);
    AppendEntry(hw, order, ds, d);
  }

  /** The body of `refresh()` up to the final assignment: the new display list. */
  method BuildDisplays(hw: Hardware) returns (newDisplays: seq<Display>)
    ensures RefreshedAs(hw, newDisplays)
  {
    var displayIds := OnlineDisplays(hw);
    var builtInCount := 0;
    var externalCount := 0;
    newDisplays := [];
    var sortedDisplayIds := SortDisplayIds(hw, displayIds);
    for k := 0 to |sortedDisplayIds|
      invariant |newDisplays| == k
      invariant builtInCount + externalCount == k
      invariant externalCount == ExternalCount(newDisplays)
      invariant forall i :: 0 <= i < k ==> RefreshedEntry(hw, sortedDisplayIds, newDisplays, i)
    {
      var displayId := sortedDisplayIds[k];
      var isBuiltIn := IsBuiltIn(hw, displayId);
      var name: string;
      if isBuiltIn {
        builtInCount := builtInCount + 1;
        name := DisplayName(InfoOf(hw, displayId).screenName, true, 0);
      } else {
        externalCount := externalCount + 1;
        name := DisplayName(InfoOf(hw, displayId).screenName, false, externalCount);
      }
      var display := RefreshDisplay(hw, displayId, name, isBuiltIn);
      ExtendRefreshed(hw, sortedDisplayIds, newDisplays, display);
      newDisplays := newDisplays + [display];
    }
  }

  // ---- The shape of a refreshed display list ----

  /** One entry per online display, and no other. */
  lemma RefreshedOnePerOnline(hw: Hardware, ds: seq<Display>)
    requires RefreshedAs(hw, ds)
    ensures |ds| == |OnlineDisplays(hw)|
    ensures multiset(DisplayIds(ds)) == multiset(OnlineDisplays(hw))
  {
    var order := SortDisplayIds(hw, OnlineDisplays(hw));
    forall i | 0 <= i < |ds|
      ensures DisplayIds(ds)[i] == order[i]
    {
      assert RefreshedEntry(hw, order, ds, i);
    }
    assert DisplayIds(ds) == order;
  }

  /** Entry `i` is the `i`-th id of the sorted online list, flagged as the system flags it. */
  lemma RefreshedFollowsOrder(hw: Hardware, ds: seq<Display>)
    requires RefreshedAs(hw, ds)
    ensures forall i :: 0 <= i < |ds| ==>
      ds[i].id == SortDisplayIds(hw, OnlineDisplays(hw))[i] && ds[i].isBuiltIn == IsBuiltIn(hw, ds[i].id)
  {
    var order := SortDisplayIds(hw, OnlineDisplays(hw));
    forall i | 0 <= i < |ds|
      ensures ds[i].id == order[i] && ds[i].isBuiltIn == IsBuiltIn(hw, ds[i].id)
    {
      assert RefreshedEntry(hw, order, ds, i);
    }
  }

  /** Every built-in display comes before every external one. */
  lemma RefreshedBuiltInFirst(hw: Hardware, ds: seq<Display>)
    requires RefreshedAs(hw, ds)
    ensures forall i, j :: 0 <= i < j < |ds| && ds[j].isBuiltIn ==> ds[i].isBuiltIn
  {
    RefreshedFollowsOrder(hw, ds);
  }

  /** Within the built-in group and within the external group, ids ascend. */
  lemma RefreshedIdsAscend(hw: Hardware, ds: seq<Display>)
    requires RefreshedAs(hw, ds)
    ensures forall i, j :: 0 <= i < j < |ds| && ds[i].isBuiltIn == ds[j].isBuiltIn ==> ds[i].id <= ds[j].id
  {
    RefreshedFollowsOrder(hw, ds);
  }

  /** The position of the first external display, or the length when there is none. */
  function FirstExternal(ds: seq<Display>): (b: nat)
    ensures b <= |ds|
    ensures forall i :: 0 <= i < b ==> ds[i].isBuiltIn
    ensures b < |ds| ==> !ds[b].isBuiltIn
  {
    if ds == [] || !ds[0].isBuiltIn then 0
    else
      var b := FirstExternal(ds[1..]);
      assert forall i :: 1 <= i < b + 1 ==> ds[i] == ds[1..][i - 1];
      b + 1
  }

  /** In a list whose first `b` entries are exactly the built-in ones, a prefix of length `n` holds `n - b` external ones. */
  lemma {:induction false} ExternalCountGrouped(ds: seq<Display>, b: nat, n: nat)
    requires b <= |ds| && n <= |ds|
    requires forall i :: 0 <= i < |ds| ==> (ds[i].isBuiltIn <==> i < b)
    ensures ExternalCount(ds[..n]) == if n <= b then 0 else n - b
  {
    if n > 0 {
      ExternalCountGrouped(ds, b, n - 1);
      assert ds[..n][..n - 1] == ds[..n - 1];
    }
  }

  /** When no external display precedes a built-in one, the built-in displays are exactly the first `FirstExternal` entries. */
  lemma BuiltInPrefix(ds: seq<Display>)
    requires forall i, j :: 0 <= i < j < |ds| && ds[j].isBuiltIn ==> ds[i].isBuiltIn
    ensures forall i :: 0 <= i < |ds| ==> (ds[i].isBuiltIn <==> i < FirstExternal(ds))
  {
  }

  /** In a list whose first `b` entries are the built-in ones, the external ones are numbered 1..k in order. */
  lemma GroupedNumbering(ds: seq<Display>, b: nat)
    requires b <= |ds|
    requires forall i :: 0 <= i < |ds| ==> (ds[i].isBuiltIn <==> i < b)
    ensures |ds| - ExternalCount(ds) == b
    ensures forall i :: 0 <= i < |ds| ==> ExternalIndex(ds, i) == if ds[i].isBuiltIn then 0 else i - b + 1
  {
    ExternalCountGrouped(ds, b, |ds|);
    assert ds[..|ds|] == ds;
    forall i | 0 <= i < |ds|
      ensures ExternalIndex(ds, i) == if ds[i].isBuiltIn then 0 else i - b + 1
    {
      if !ds[i].isBuiltIn {
        ExternalCountGrouped(ds, b, i + 1);
      }
    }
  }

  /**
   * With `nb` built-in displays, they occupy positions 0..nb-1, and the
   * external display at position `i` receives index `i - nb + 1`: the
   * external displays are numbered 1, 2, ..., k in list order.
   */
  lemma RefreshedExternalNumbering(hw: Hardware, ds: seq<Display>)
    requires RefreshedAs(hw, ds)
    ensures var nb := |ds| - ExternalCount(ds);
      forall i :: 0 <= i < |ds| ==>
        && (ds[i].isBuiltIn <==> i < nb)
        && ExternalIndex(ds, i) == if ds[i].isBuiltIn then 0 else i - nb + 1
  {
    RefreshedBuiltInFirst(hw, ds);
    BuiltInPrefix(ds);
    GroupedNumbering(ds, FirstExternal(ds));
  }

  /** Each display is named by `getDisplayName` with its index: its screen name, else "Built-in" or "External Display <index>". */
  lemma RefreshedNames(hw: Hardware, ds: seq<Display>)
    requires RefreshedAs(hw, ds)
    ensures var nb := |ds| - ExternalCount(ds);
      forall i :: 0 <= i < |ds| ==>
        ds[i].name == DisplayName(InfoOf(hw, ds[i].id).screenName, ds[i].isBuiltIn,
                                  if ds[i].isBuiltIn then 0 else i - nb + 1)
  {
    var order := SortDisplayIds(hw, OnlineDisplays(hw));
    RefreshedExternalNumbering(hw, ds);
    forall i | 0 <= i < |ds|
      ensures ds[i].name == DisplayName(InfoOf(hw, ds[i].id).screenName, ds[i].isBuiltIn, ExternalIndex(ds, i))
    {
      assert RefreshedEntry(hw, order, ds, i);
    }
  }

  /** External displays without a screen name are told apart by their index, and never called "Built-in". */
  lemma FallbackNamesDistinct(a: int, b: int)
    ensures DisplayName(None, false, a) == DisplayName(None, false, b) <==> a == b
    ensures DisplayName(None, false, a) != DisplayName(None, true, 0)
  {
    var prefix := "External Display ";
    if DisplayName(None, false, a) == DisplayName(None, false, b) {
      assert IntToString(a) == (prefix + IntToString(a))[|prefix|..];
      assert IntToString(b) == (prefix + IntToString(b))[|prefix|..];
      IntToStringInjective(a, b);
    }
    assert DisplayName(None, false, a)[0] == 'E';
  }
}
