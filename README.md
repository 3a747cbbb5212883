# QuickRes display manager, modelled in Dafny

QuickRes is a macOS menu-bar utility that lists each display's full-screen
resolutions and switches between them, with a quick toggle between
1440 × 900 ("Default") and 1920 × 1200 ("More Space"). Its only logic lives in
`DisplayManager`. This project models that logic with every CoreGraphics and
AppKit query replaced by plain input data:

- `Resolution` (`resolutions.dfy`): a display mode reduced to its width, height, pixel width and pixel height. Its id is `"<width>x<height>"` and equality compares ids only. Also its menu title and `findResolution`.
- `getAvailableResolutions` (`available.dfy`): the loop over modes, its four filters, the dictionary that keeps the densest mode per id, and the sort by width, widest first.
- `refresh` and `refreshDisplay` (`displays.dfy`): the display comparator (built-in first, then ascending id), the external display numbering and the fallback names.
- The `DisplayManager` class (`manager.dfy`): its `displays` and `errorMessage` fields and `refresh`, `setResolution` and `toggleResolution`.
- `decimal.dfy`: Swift's `"\(n)"` rendering of an `Int`, which ids, titles, names and messages are built from.

The system is represented by a `Hardware` value. It holds the online display
list (`None` when `CGGetOnlineDisplayList` fails) and a map from display id
to what the system reports about that display: built-in flag, native pixel
size, current mode, all modes (`None` when the copy fails) and screen name.
An id missing from the map gets CoreGraphics' answers for an unknown display:
not built in, 0 × 0 pixels, no modes, no name. The outcome of
`CGDisplaySetDisplayMode` is a `CGError` raw value passed in as `result`
(0 is success).

The order in which a Swift dictionary hands out its values is unspecified,
and `sort` is not stable. So the model picks the dictionary's values in an
arbitrary order (`:|`). What `getAvailableResolutions` may return is then a
relation, `AvailableFor`: every value of the final dictionary exactly once,
sorted by width. It fixes no order among resolutions of equal width. The
dictionary fold and its lemmas take the filter as a parameter (`Filter`
builds it from the four conditions), so they hold for any filter. The two
library sorts are modelled as insertion sorts whose contracts state
sortedness and permutation.

## Model

| member | source | states |
|---|---|---|
| Resolutions.ResolutionIdInjective | QuickRes/DisplayManager.swift:40 | two sizes share the id string `"WxH"` exactly when their widths and heights are equal |
| Resolutions.SameResolutionIff | QuickRes/DisplayManager.swift:35-49 | two resolutions built from modes are `==` exactly when the modes have the same logical width and height |
| Resolutions.DescriptionMarksHiDPI | QuickRes/DisplayManager.swift:27-33 | a menu title ends with " (HiDPI)" exactly when the resolution is HiDPI |
| Resolutions.FindResolution | QuickRes/DisplayManager.swift:276-278 | `None` exactly when no listed resolution has the size; otherwise a resolution of that size that no earlier entry matches |
| Available.AspectRatioMatchesExactly | QuickRes/DisplayManager.swift:215-216 | the integer aspect test equals `|w/h - nw/nh| < 0.01` over the rationals |
| Available.SortByWidth | QuickRes/DisplayManager.swift:238-239 | the result is sorted by width, non-increasing, and is a permutation of the input |
| Available.AvailableResolutions | QuickRes/DisplayManager.swift:184-242 | the loop leaves the dictionary the fold of the filter-and-keep step over the modes; the result lists each final dictionary value once, sorted by width; empty when the native height is 0 or the mode list is unavailable |
| Available.DedupEntries | QuickRes/DisplayManager.swift:199-235 | for any mode filter, every dictionary entry is keyed by its own id and is built from a listed mode that passes the filter |
| Available.DedupKeys | QuickRes/DisplayManager.swift:199-235 | for any mode filter, the dictionary keys are exactly the ids of the modes that pass it |
| Available.DedupDensest | QuickRes/DisplayManager.swift:227-234 | for any mode filter and each id, the kept mode has a pixel width at least that of every passing mode with that id |
| Available.DedupFirstDensest | QuickRes/DisplayManager.swift:227-234 | the kept mode is at a position before which no filter-passing mode with that id is as wide in pixels: a later mode replaces it only when strictly wider |
| Available.AvailablePassFilters | QuickRes/DisplayManager.swift:201-225 | every returned resolution is `Resolution(mode:)` of a listed mode that passes all four filters |
| Available.AvailableWithinBounds | QuickRes/DisplayManager.swift:201-223 | every returned resolution has width at least 640, height at least 480, pixel width at least its width and pixel height at least its height |
| Available.AvailableBuiltInHiDPI | QuickRes/DisplayManager.swift:207-212 | on a built-in display every returned resolution is HiDPI (pixel width greater than width) |
| Available.AvailableUniqueIds | QuickRes/DisplayManager.swift:227-235 | no two returned resolutions are `==` or have the same width and height |
| Available.AvailableIds | QuickRes/DisplayManager.swift:199-241 | the set of returned ids equals the set of ids of the modes that pass the filters |
| Available.AvailableKeepsDensest | QuickRes/DisplayManager.swift:227-234 | the resolution returned for an id has pixel width at least that of every filter-passing mode with that id |
| Available.AvailableKeepsFirstDensest | QuickRes/DisplayManager.swift:227-234 | the resolution returned for an id comes from the first listed mode of greatest pixel width among the filter-passing modes with that id |
| Displays.SortDisplayIds | QuickRes/DisplayManager.swift:128-139 | the result is sorted by the comparator (built-in before external, then ascending id) and is a permutation of the input |
| Displays.RefreshDisplay | QuickRes/DisplayManager.swift:164-181 | the display keeps the given id, name and kind, its current resolution is that of the current mode, and its available list is one `getAvailableResolutions` may return |
| Displays.BuildDisplays | QuickRes/DisplayManager.swift:121-158 | entry i is the i-th id of the sorted online list, refreshed and named with the external index the counter gives it |
| Displays.RefreshedOnePerOnline | QuickRes/DisplayManager.swift:82-90 | a refreshed list has one entry per online display id (at most 32), and no other |
| Displays.RefreshedFollowsOrder | QuickRes/DisplayManager.swift:128-142 | each entry is the id at its position in the sorted online list, with the system's built-in flag |
| Displays.RefreshedBuiltInFirst | QuickRes/DisplayManager.swift:127-139 | every built-in display precedes every external display |
| Displays.RefreshedIdsAscend | QuickRes/DisplayManager.swift:127-139 | within the built-in group and within the external group, ids ascend |
| Displays.RefreshedExternalNumbering | QuickRes/DisplayManager.swift:141-154 | with nb built-in displays, those occupy the first nb positions with index 0, and the external display at position i gets index i - nb + 1, so externals are numbered 1..k in order |
| Displays.RefreshedNames | QuickRes/DisplayManager.swift:101-118 | each display is named by its screen name, else "Built-in", else "External Display " followed by its external index |
| Displays.FallbackNamesDistinct | QuickRes/DisplayManager.swift:112-117 | fallback names of external displays differ exactly when their indices differ, and are never "Built-in" |
| Manager.FirstIndexOf | QuickRes/DisplayManager.swift:287 | `None` exactly when no display has the id; otherwise the first position holding it |
| Manager.ToggleTarget | QuickRes/DisplayManager.swift:248-266 | the target is 1440 × 900 exactly when there is no current resolution or it is 1920 × 1200, and 1920 × 1200 otherwise; it always differs from the current size |
| Manager.ToggleTargetAlternates | QuickRes/DisplayManager.swift:244-266 | from either target size, toggling twice returns to it |
| Manager.SetResolutionKeepsLayout | QuickRes/DisplayManager.swift:281-295 | `setResolution` keeps every display's id, name, kind and position |
| Manager.DisplayManager.constructor | QuickRes/DisplayManager.swift:70-73 | a new manager holds a refreshed display list and no error |
| Manager.DisplayManager.Refresh | QuickRes/DisplayManager.swift:121-161 | `displays` becomes a refreshed list for the current configuration; `errorMessage` is unchanged |
| Manager.DisplayManager.SetResolution | QuickRes/DisplayManager.swift:281-295 | on success the error is cleared and only the first display with the id is replaced by a refreshed copy with the same name and kind; on failure the error message is set and `displays` is unchanged |
| Manager.DisplayManager.ToggleResolution | QuickRes/DisplayManager.swift:245-273 | with no displays nothing changes; otherwise the target is chosen by `ToggleTarget` and looked up with `FindResolution` in the first display's list; if found, it is set through `setResolution`; if absent, nothing is set and the "not available" error is reported, except when there is no current resolution, where nothing changes |

## Left out

- CoreGraphics and AppKit calls (`CGGetOnlineDisplayList`, `CGDisplayIsBuiltin`, `CGDisplayPixelsWide/High`, `CGDisplayCopyDisplayMode`, `CGDisplayCopyAllDisplayModes`, `CGDisplaySetDisplayMode`, the `NSScreen` lookup) are foreign. They are inputs: the `Hardware` snapshot and the `result` code. Whether a successful mode switch actually changes what the system reports afterwards is up to the caller's snapshot.
- The `kCGDisplayShowDuplicateLowResolutionModes` option is an instruction to the system. Its effect is part of the input mode list.
- Available.AspectRatioMatches: the source compares `Double` quotients. The model uses the exact rational test, so IEEE rounding near the 0.01 threshold is not captured.
- Tie order among resolutions of equal width is left open, because dictionary order is unspecified and Swift's `sort` is not stable. The insertion sorts fix one order, but no contract relies on it.
- The reconfiguration callback, its registration and removal (`setupDisplayReconfigurationCallback`, `deinit`, `displayReconfigurationCallback`) and the hop to the main queue are OS event delivery and threading. A callback's effect is a call to `Refresh`.
- `@Published` change notification and the `Identifiable`/`Hashable` conformances are not modelled, except equality by id. `ResolutionMenuItem` is a plain pair used by the menu and is left out.
- `Resolution.mode` keeps only the four numbers the app reads, not the opaque `CGDisplayMode` handle.
- The menu, settings and app files (`AppDelegate.swift`, `SettingsManager.swift`, `SettingsView.swift`, `QuickResApp.swift`) are UI and platform glue and are not part of this model.
