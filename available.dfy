/**
 * `DisplayManager.getAvailableResolutions(for:isBuiltIn:)`: the full-screen
 * resolutions a display offers.  Every mode the system lists is filtered
 * (minimum size, HiDPI only on built-in panels, native aspect ratio, pixel
 * size at least the logical size), modes with the same id are collapsed to
 * the one with the most pixels across, and the survivors are sorted by
 * width, widest first.
 */
module Available {
  import opened Wrappers
  import opened Resolutions

  const MinWidth := 640
  const MinHeight := 480

  /** `CGDisplayPixelsWide` / `CGDisplayPixelsHigh`: the panel's native size. */
  datatype NativeSize = NativeSize(width: nat, height: nat)

  function Abs(x: int): nat {
    if x < 0 then -x else x
  }

  /**
   * `abs(width / height - nativeWidth / nativeHeight) < 0.01`, in exact
   * rational arithmetic: both heights are positive, so multiplying through by
   * `100 * height * nativeHeight` keeps the comparison.
   */
  predicate AspectRatioMatches(width: int, height: int, native: NativeSize) {
    100 * Abs(width * native.height - height * native.width) < height * native.height
  }

  function RealAbs(x: real): real {
    if x < 0.0 then -x else x
  }

  lemma DivDifference(a: real, b: real, p: real, q: real)
    requires b > 0.0 && q > 0.0
    ensures a / b - p / q == (a * q - b * p) / (b * q)
  {
  }

  lemma ScaledBound(y: real, d: real)
    requires d > 0.0
    ensures RealAbs(y / d) < 0.01 <==> 100.0 * RealAbs(y) < d
  {
    var z := y / d;
    assert z * d == y;
    assert RealAbs(z) * d == RealAbs(y);
    var gap := 0.01 - RealAbs(z);
    assert gap * d == 0.01 * d - RealAbs(y);
    assert gap > 0.0 <==> gap * d > 0.0;
  }

  /** The integer test agrees with `|width/height - nativeWidth/nativeHeight| < 0.01` over the rationals. */
  lemma AspectRatioMatchesExactly(width: int, height: int, native: NativeSize)
    requires height > 0 && native.height > 0
    ensures AspectRatioMatches(width, height, native) <==>
            RealAbs(width as real / height as real - native.width as real / native.height as real) < 0.01
  {
    var w, h, nw, nh := width as real, height as real, native.width as real, native.height as real;
    DivDifference(w, h, nw, nh);
    assert h * nh > 0.0;
    ScaledBound(w * nh - h * nw, h * nh);
    var x := width * native.height - height * native.width;
    assert (w * nh - h * nw) == x as real;
    assert h * nh == (height * native.height) as real;
    assert RealAbs(x as real) == Abs(x) as real;
  }

  /** The four `continue` conditions of the loop over modes, negated. */
  predicate PassesFilters(mode: Mode, isBuiltIn: bool, native: NativeSize) {
    && !(mode.width < MinWidth || mode.height < MinHeight)
    && (isBuiltIn ==> mode.pixelWidth > mode.width)
    && AspectRatioMatches(mode.width, mode.height, native)
    && !(mode.pixelWidth < mode.width || mode.pixelHeight < mode.height)
  }

  /** The filters of one display, as a predicate on modes. */
  function Filter(isBuiltIn: bool, native: NativeSize): Mode -> bool {
    mode => PassesFilters(mode, isBuiltIn, native)
  }

  /** The ids of the modes that pass `passes`. */
  ghost function PassingIds(modes: seq<Mode>, passes: Mode -> bool): set<string> {
    set m | m in modes && passes(m) :: ResolutionId(m.width, m.height)
  }

  /** One turn of the loop: the dictionary after `mode` has been considered. */
  function KeepDensest(resolutionMap: map<string, Resolution>, mode: Mode, passes: Mode -> bool)
    : map<string, Resolution>
  {
    if !passes(mode) then resolutionMap
    else
      var resolution := ResolutionOf(mode);
      if resolution.id in resolutionMap then
        if mode.pixelWidth > resolutionMap[resolution.id].mode.pixelWidth
        then resolutionMap[resolution.id := resolution]
        else resolutionMap
      else
        resolutionMap[resolution.id := resolution]
  }

  /** The dictionary `resolutionMap` after the loop has gone through all of `modes`. */
  function Dedup(modes: seq<Mode>, passes: Mode -> bool): map<string, Resolution> {
    if modes == [] then map[]
    else KeepDensest(Dedup(modes[..|modes| - 1], passes), modes[|modes| - 1], passes)
  }

  predicate SortedByWidth(rs: seq<Resolution>) {
    forall i, j :: 0 <= i < j < |rs| ==> rs[i].width >= rs[j].width
  }

  /** Putting a resolution at least as wide as the head in front keeps a list sorted. */
  lemma PrependSorted(r: Resolution, rs: seq<Resolution>)
    requires SortedByWidth(rs)
    requires rs == [] || r.width >= rs[0].width
    ensures SortedByWidth([r] + rs)
  {
  }

  /** Inserts `r` into a list sorted widest first. */
  function InsertByWidth(r: Resolution, rs: seq<Resolution>): (out: seq<Resolution>)
    requires SortedByWidth(rs)
    ensures SortedByWidth(out)
    ensures multiset(out) == multiset(rs) + multiset{r}
    ensures out[0] == r || out[0] == rs[0]
  {
    if rs == [] || !(rs[0].width > r.width) then PrependSorted(r, rs); [r] + rs
    else
      var rest := InsertByWidth(r, rs[1..]);
      assert rs == [rs[0]] + rs[1..];
      PrependSorted(rs[0], rest);
      [rs[0]] + rest
  }

  /** `resolutions.sort { $0.width > $1.width }`, as an insertion sort. */
  function SortByWidth(rs: seq<Resolution>): (out: seq<Resolution>)
    ensures SortedByWidth(out) && multiset(out) == multiset(rs)
  {
    if rs == [] then []
    else
      assert rs == [rs[0]] + rs[1..];
      InsertByWidth(rs[0], SortByWidth(rs[1..]))
  }

  /**
   * What `getAvailableResolutions` may return: nothing when the native height
   * is 0 or the mode list is unavailable, otherwise every value of the final
   * dictionary exactly once, widest first.  The order among equal widths is
   * left open, as Swift's dictionary order and `sort` leave it.
   */
  ghost predicate AvailableFor(isBuiltIn: bool, native: NativeSize, modes: Option<seq<Mode>>,
                               rs: seq<Resolution>)
  {
    if native.height == 0 || modes.None? then rs == []
    else SortedByWidth(rs) && multiset(rs) == multiset(Dedup(modes.value, Filter(isBuiltIn, native)).Values)
  }

  /**
   * `getAvailableResolutions`.  `native` stands for the two `CGDisplayPixels`
   * queries and `modes` for `CGDisplayCopyAllDisplayModes` (`None` when it fails).
   */
  method AvailableResolutions(isBuiltIn: bool, native: NativeSize, modes: Option<seq<Mode>>)
    returns (resolutions: seq<Resolution>)
    ensures AvailableFor(isBuiltIn, native, modes, resolutions)
    ensures native.height == 0 || modes.None? ==> resolutions == []
    ensures SortedByWidth(resolutions)
  {
    if native.height == 0 {
      return [];
    }
    if modes.None? {
      return [];
    }
    var all := modes.value;
    var resolutionMap: map<string, Resolution> := map[];
    for i := 0 to |all|
      invariant resolutionMap == Dedup(all[..i], Filter(isBuiltIn, native))
    {
      assert all[..i + 1][..i] == all[..i];
      var mode := all[i];
      if mode.width < MinWidth || mode.height < MinHeight {
        continue;
      }
      if isBuiltIn {
        var isHiDPI := mode.pixelWidth > mode.width;
        if !isHiDPI {
          continue;
        }
      }
      var aspectRatioMatches := AspectRatioMatches(mode.width, mode.height, native);
      if !aspectRatioMatches {
        continue;
      }
      if mode.pixelWidth < mode.width || mode.pixelHeight < mode.height {
        continue;
      }
      var resolution := ResolutionOf(mode);
      if resolution.id in resolutionMap {
        if mode.pixelWidth > resolutionMap[resolution.id].mode.pixelWidth {
          resolutionMap := resolutionMap[resolution.id := resolution];
        }
      } else {
        resolutionMap := resolutionMap[resolution.id := resolution];
      }
    }
    assert all[..|all|] == all;

    // Array(resolutionMap.values): the dictionary hands its values out in an unspecified order.
    var values := resolutionMap.Values;
    resolutions := [];
    while values != {}
      invariant values <= resolutionMap.Values
      invariant multiset(resolutions) + multiset(values) == multiset(resolutionMap.Values)
      decreases |values|
    {
      var v :| v in values;
      assert multiset(values) == multiset(values - {v}) + multiset{v};
      resolutions := resolutions + [v];
      values := values - {v};
    }
    resolutions := SortByWidth(resolutions);
  }

  // ---- The dictionary after the loop, for any filter ----

  /** Every entry is keyed by its own id and comes from a mode of the list that passes the filter. */
  ghost predicate EntriesFromPassingModes(resolutionMap: map<string, Resolution>, modes: seq<Mode>,
                                          passes: Mode -> bool)
  {
    forall id :: id in resolutionMap ==>
      && resolutionMap[id].id == id
      && resolutionMap[id] == ResolutionOf(resolutionMap[id].mode)
      && resolutionMap[id].mode in modes
      && passes(resolutionMap[id].mode)
  }

  lemma {:induction false} DedupEntries(modes: seq<Mode>, passes: Mode -> bool)
    ensures EntriesFromPassingModes(Dedup(modes, passes), modes, passes)
  {
    if modes != [] {
      var init := modes[..|modes| - 1];
      DedupEntries(init, passes);
      assert forall m :: m in init ==> m in modes;
    }
  }

  /** The dictionary has a key for exactly the ids of the modes that pass the filter. */
  lemma {:induction false} DedupKeys(modes: seq<Mode>, passes: Mode -> bool)
    ensures Dedup(modes, passes).Keys == PassingIds(modes, passes)
  {
    if modes != [] {
      var init, last := modes[..|modes| - 1], modes[|modes| - 1];
      DedupKeys(init, passes);
      assert modes == init + [last];
      assert forall m :: m in modes <==> m in init || m == last;
    }
  }

  /** For each id, the kept mode has at least the pixel width of every passing mode with that id. */
  lemma {:induction false} DedupDensest(modes: seq<Mode>, passes: Mode -> bool)
    ensures var resolutionMap := Dedup(modes, passes);
      forall j :: 0 <= j < |modes| && passes(modes[j]) ==>
        && ResolutionId(modes[j].width, modes[j].height) in resolutionMap
        && resolutionMap[ResolutionId(modes[j].width, modes[j].height)].mode.pixelWidth >= modes[j].pixelWidth
  {
    if modes != [] {
      var init := modes[..|modes| - 1];
      DedupDensest(init, passes);
      forall j | 0 <= j < |modes| - 1
        ensures modes[j] == init[j]
      {
      }
    }
  }

  /** No passing mode before position `i` with the same id has at least its pixel width. */
  ghost predicate FirstDensestAt(modes: seq<Mode>, i: nat, id: string, passes: Mode -> bool)
    requires i < |modes|
  {
    forall j :: 0 <= j < i && passes(modes[j]) && ResolutionId(modes[j].width, modes[j].height) == id ==>
      modes[j].pixelWidth < modes[i].pixelWidth
  }

  /**
   * A later mode displaces the kept one only when it is strictly wider in
   * pixels, so the kept mode is the first of the densest ones.
   */
  lemma {:induction false} DedupFirstDensest(modes: seq<Mode>, passes: Mode -> bool, id: string)
    requires id in Dedup(modes, passes)
    ensures exists i :: 0 <= i < |modes| && modes[i] == Dedup(modes, passes)[id].mode &&
                        FirstDensestAt(modes, i, id, passes)
  {
    var init, last := modes[..|modes| - 1], modes[|modes| - 1];
    var before, after := Dedup(init, passes), Dedup(modes, passes);
    if id in before && after[id] == before[id] {
      DedupFirstDensest(init, passes, id);
      var i :| 0 <= i < |init| && init[i] == before[id].mode && FirstDensestAt(init, i, id, passes);
      forall j | 0 <= j <= i
        ensures modes[j] == init[j]
      {
      }
      assert FirstDensestAt(modes, i, id, passes);
    } else {
      DedupDensest(init, passes);
      DedupKeys(init, passes);
      var i := |modes| - 1;
      assert after[id] == ResolutionOf(last);
      assert FirstDensestAt(modes, i, id, passes) by {
        forall j | 0 <= j < i && passes(modes[j]) && ResolutionId(modes[j].width, modes[j].height) == id
          ensures modes[j].pixelWidth < last.pixelWidth
        {
          assert modes[j] == init[j];
          assert init[j] in init;
        }
      }
    }
  }

  // ---- What every result of AvailableResolutions satisfies ----

  /** A multiset with no element twice lists no element twice. */
  lemma CountsRepeat(rs: seq<Resolution>, i: nat, j: nat)
    requires i < j < |rs|
    ensures rs[i] == rs[j] ==> multiset(rs)[rs[i]] >= 2
  {
    if rs[i] == rs[j] {
      assert rs == rs[..j] + rs[j..];
      assert rs[..j][i] == rs[i] && rs[j..][0] == rs[i];
      assert multiset(rs[..j])[rs[i]] >= 1 && multiset(rs[j..])[rs[i]] >= 1;
    }
  }

  lemma NoRepeats(rs: seq<Resolution>, values: set<Resolution>)
    requires multiset(rs) == multiset(values)
    ensures forall i, j :: 0 <= i < j < |rs| ==> rs[i] != rs[j]
  {
    forall i, j | 0 <= i < j < |rs|
      ensures rs[i] != rs[j]
    {
      CountsRepeat(rs, i, j);
    }
  }

  /** The returned list holds exactly the values of the final dictionary. */
  lemma AvailableMembers(isBuiltIn: bool, native: NativeSize, modes: seq<Mode>, rs: seq<Resolution>)
    requires native.height > 0
    requires AvailableFor(isBuiltIn, native, Some(modes), rs)
    ensures forall r :: r in rs <==> r in Dedup(modes, Filter(isBuiltIn, native)).Values
  {
    forall r
      ensures r in rs <==> r in Dedup(modes, Filter(isBuiltIn, native)).Values
    {
      assert r in rs <==> r in multiset(rs);
    }
  }

  /** Every returned resolution comes from a listed mode that passed all four filters. */
  lemma AvailablePassFilters(isBuiltIn: bool, native: NativeSize, modes: Option<seq<Mode>>,
                             rs: seq<Resolution>)
    requires AvailableFor(isBuiltIn, native, modes, rs)
    ensures forall r :: r in rs ==>
      && native.height > 0 && modes.Some?
      && r == ResolutionOf(r.mode)
      && r.mode in modes.value
      && PassesFilters(r.mode, isBuiltIn, native)
  {
    if native.height > 0 && modes.Some? {
      DedupEntries(modes.value, Filter(isBuiltIn, native));
      forall r | r in rs
        ensures r in Dedup(modes.value, Filter(isBuiltIn, native)).Values
      {
        assert r in multiset(rs);
      }
    }
  }

  /** Width at least 640, height at least 480, and at least as many pixels as logical points. */
  lemma AvailableWithinBounds(isBuiltIn: bool, native: NativeSize, modes: Option<seq<Mode>>,
                              rs: seq<Resolution>)
    requires AvailableFor(isBuiltIn, native, modes, rs)
    ensures forall r :: r in rs ==>
      && r.width >= MinWidth && r.height >= MinHeight
      && r.mode.pixelWidth >= r.width && r.mode.pixelHeight >= r.height
  {
    AvailablePassFilters(isBuiltIn, native, modes, rs);
  }

  /** A built-in panel is offered HiDPI resolutions only. */
  lemma AvailableBuiltInHiDPI(isBuiltIn: bool, native: NativeSize, modes: Option<seq<Mode>>,
                              rs: seq<Resolution>)
    requires AvailableFor(isBuiltIn, native, modes, rs)
    requires isBuiltIn
    ensures forall r :: r in rs ==> r.isHiDPI && r.mode.pixelWidth > r.width
  {
    AvailablePassFilters(isBuiltIn, native, modes, rs);
  }

  /** Distinct values of a map keyed by their own ids have distinct ids. */
  lemma DistinctValuesDistinctIds(rs: seq<Resolution>, resolutionMap: map<string, Resolution>)
    requires forall r :: r in rs ==> r in resolutionMap.Values
    requires forall id :: id in resolutionMap ==> resolutionMap[id].id == id
    requires forall i, j :: 0 <= i < j < |rs| ==> rs[i] != rs[j]
    ensures forall i, j :: 0 <= i < j < |rs| ==> rs[i].id != rs[j].id
  {
    forall i, j | 0 <= i < j < |rs|
      ensures rs[i].id != rs[j].id
    {
      assert rs[i] in rs && rs[j] in rs;
    }
  }

  /** No two returned resolutions share an id, so no two have the same size. */
  lemma AvailableUniqueIds(isBuiltIn: bool, native: NativeSize, modes: Option<seq<Mode>>,
                           rs: seq<Resolution>)
    requires AvailableFor(isBuiltIn, native, modes, rs)
    ensures forall i, j :: 0 <= i < j < |rs| ==>
      && !SameResolution(rs[i], rs[j])
      && !(rs[i].width == rs[j].width && rs[i].height == rs[j].height)
  {
    if native.height > 0 && modes.Some? {
      var resolutionMap := Dedup(modes.value, Filter(isBuiltIn, native));
      NoRepeats(rs, resolutionMap.Values);
      AvailableMembers(isBuiltIn, native, modes.value, rs);
      DedupEntries(modes.value, Filter(isBuiltIn, native));
      DistinctValuesDistinctIds(rs, resolutionMap);
      AvailablePassFilters(isBuiltIn, native, modes, rs);
    }
  }

  lemma AvailableIdsAreKeys(isBuiltIn: bool, native: NativeSize, modes: seq<Mode>, rs: seq<Resolution>)
    requires native.height > 0
    requires forall r :: r in rs <==> r in Dedup(modes, Filter(isBuiltIn, native)).Values
    requires EntriesFromPassingModes(Dedup(modes, Filter(isBuiltIn, native)), modes, Filter(isBuiltIn, native))
    ensures (set r | r in rs :: r.id) == Dedup(modes, Filter(isBuiltIn, native)).Keys
  {
  }

  /** The returned ids are exactly the ids of the modes that pass the filters. */
  lemma AvailableIds(isBuiltIn: bool, native: NativeSize, modes: seq<Mode>, rs: seq<Resolution>)
    requires native.height > 0
    requires AvailableFor(isBuiltIn, native, Some(modes), rs)
    ensures (set r | r in rs :: r.id) ==
            (set m | m in modes && PassesFilters(m, isBuiltIn, native) :: ResolutionId(m.width, m.height))
  {
    DedupKeys(modes, Filter(isBuiltIn, native));
    DedupEntries(modes, Filter(isBuiltIn, native));
    AvailableMembers(isBuiltIn, native, modes, rs);
    AvailableIdsAreKeys(isBuiltIn, native, modes, rs);
  }

  /** The resolution returned for an id has at least the pixel width of every filter-passing mode with that id. */
  lemma AvailableKeepsDensest(isBuiltIn: bool, native: NativeSize, modes: seq<Mode>, rs: seq<Resolution>)
    requires native.height > 0
    requires AvailableFor(isBuiltIn, native, Some(modes), rs)
    ensures forall r, j :: r in rs && 0 <= j < |modes| && PassesFilters(modes[j], isBuiltIn, native) &&
                           ResolutionId(modes[j].width, modes[j].height) == r.id ==>
              r.mode.pixelWidth >= modes[j].pixelWidth
  {
    DedupDensest(modes, Filter(isBuiltIn, native));
    DedupEntries(modes, Filter(isBuiltIn, native));
    AvailableMembers(isBuiltIn, native, modes, rs);
  }

  /** Of the modes with an id, the one returned is the first with the greatest pixel width. */
  lemma AvailableKeepsFirstDensest(isBuiltIn: bool, native: NativeSize, modes: seq<Mode>, rs: seq<Resolution>)
    requires native.height > 0
    requires AvailableFor(isBuiltIn, native, Some(modes), rs)
    ensures forall r :: r in rs ==>
      exists i :: 0 <= i < |modes| && modes[i] == r.mode && FirstDensestAt(modes, i, r.id, Filter(isBuiltIn, native))
  {
    var resolutionMap := Dedup(modes, Filter(isBuiltIn, native));
    DedupEntries(modes, Filter(isBuiltIn, native));
    AvailableMembers(isBuiltIn, native, modes, rs);
    forall r | r in rs
      ensures exists i :: 0 <= i < |modes| && modes[i] == r.mode && FirstDensestAt(modes, i, r.id, Filter(isBuiltIn, native))
    {
      DedupFirstDensest(modes, Filter(isBuiltIn, native), r.id);
    }
  }
}
