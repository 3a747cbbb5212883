/**
 * `DisplayManager.Resolution`: one display mode as the menu shows it.
 * A CoreGraphics display mode is reduced to the four numbers the app reads
 * from it.  Two resolutions are equal (and hash alike) exactly when their
 * ids are equal; the id is `"<width>x<height>"`.
 */
module Resolutions {
  import opened Wrappers
  import opened Decimal

  /** The fields of a `CGDisplayMode` that the app reads. */
  datatype Mode = Mode(width: int, height: int, pixelWidth: int, pixelHeight: int)

  datatype Resolution = Resolution(id: string, width: int, height: int, mode: Mode, isHiDPI: bool)

  /** The resolution id `"\(width)x\(height)"`. */
  function ResolutionId(width: int, height: int): string {
    IntToString(width) + "x" + IntToString(height)
  }

  /** `Resolution.init(mode:)`. */
  function ResolutionOf(mode: Mode): Resolution {
    Resolution(ResolutionId(mode.width, mode.height), mode.width, mode.height, mode,
               mode.pixelWidth > mode.width)
  }

  /** `Resolution.==`: only the ids are compared. */
  predicate SameResolution(a: Resolution, b: Resolution) {
    a.id == b.id
  }

  /** Two joins at a separator that neither left part contains split the same way. */
  lemma SplitAtSeparator(a1: string, b1: string, a2: string, b2: string)
    requires 'x' !in a1 && 'x' !in a2
    requires a1 + "x" + b1 == a2 + "x" + b2
    ensures a1 == a2 && b1 == b2
  {
    var s := a1 + "x" + b1;
    assert s[|a1|] == 'x' && forall i :: 0 <= i < |a1| ==> s[i] == a1[i];
    assert s[|a2|] == 'x' && forall i :: 0 <= i < |a2| ==> s[i] == a2[i];
    assert |a1| == |a2|;
    assert a1 == s[..|a1|] == a2;
    assert b1 == s[|a1| + 1..] == b2;
  }

  /** The id determines width and height: no other size is written the same way. */
  lemma {:induction false} ResolutionIdInjective(w1: int, h1: int, w2: int, h2: int)
    ensures ResolutionId(w1, h1) == ResolutionId(w2, h2) <==> w1 == w2 && h1 == h2
  {
    if ResolutionId(w1, h1) == ResolutionId(w2, h2) {
      var a1, a2 := IntToString(w1), IntToString(w2);
      // A numeral holds digits and a sign only, so the first 'x' of the id ends the width.
      assert 'x' !in a1 && 'x' !in a2;
      SplitAtSeparator(a1, IntToString(h1), a2, IntToString(h2));
      IntToStringInjective(w1, w2);
      IntToStringInjective(h1, h2);
    }
  }

  /** Two modes give equal resolutions exactly when their logical sizes agree. */
  lemma SameResolutionIff(m1: Mode, m2: Mode)
    ensures SameResolution(ResolutionOf(m1), ResolutionOf(m2)) <==>
            m1.width == m2.width && m1.height == m2.height
  {
    ResolutionIdInjective(m1.width, m1.height, m2.width, m2.height);
  }

  const HiDPISuffix := " (HiDPI)"

  predicate EndsWith(s: string, suffix: string) {
    |suffix| <= |s| && s[|s| - |suffix|..] == suffix
  }

  /** `Resolution.description`, the menu item title. */
  function Description(r: Resolution): string {
    var size := IntToString(r.width) + " × " + IntToString(r.height);
    if r.isHiDPI then size + HiDPISuffix else size
  }

  /** A title carries the "(HiDPI)" mark exactly when the resolution is HiDPI. */
  lemma DescriptionMarksHiDPI(r: Resolution)
    ensures EndsWith(Description(r), HiDPISuffix) <==> r.isHiDPI
  {
    var size := IntToString(r.width) + " × " + IntToString(r.height);
    if r.isHiDPI {
      assert (size + HiDPISuffix)[|size|..] == HiDPISuffix;
    } else {
      assert size[|size| - 1] == IntToString(r.height)[|IntToString(r.height)| - 1];
    }
  }

  predicate HasSize(r: Resolution, width: int, height: int) {
    r.width == width && r.height == height
  }

  /** `findResolution(width:height:in:)`: the first resolution of the list with that size. */
  function FindResolution(width: int, height: int, rs: seq<Resolution>): (found: Option<Resolution>)
    ensures found.None? <==> forall r :: r in rs ==> !HasSize(r, width, height)
    ensures found.Some? ==> HasSize(found.value, width, height)
    ensures found.Some? ==>
              exists i :: 0 <= i < |rs| && rs[i] == found.value &&
                          forall j :: 0 <= j < i ==> !HasSize(rs[j], width, height)
  {
    if rs == [] then None
    else if HasSize(rs[0], width, height) then Some(rs[0])
    else
      var found := FindResolution(width, height, rs[1..]);
      assert forall r :: r in rs ==> r == rs[0] || r in rs[1..];
      if found.Some? then
        var i :| 0 <= i < |rs[1..]| && rs[1..][i] == found.value &&
                 forall j :: 0 <= j < i ==> !HasSize(rs[1..][j], width, height);
        assert rs[i + 1] == found.value;
        assert forall j :: 0 <= j < i + 1 ==> !HasSize(rs[j], width, height) by {
          forall j | 0 <= j < i + 1 ensures !HasSize(rs[j], width, height) {
            if j > 0 { assert rs[j] == rs[1..][j - 1]; }
          }
        }
        found
      else
        found
  }
}
