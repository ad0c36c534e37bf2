/** The selection state machine of the building viewer and everything that is
    derived from the selection alone: which floor a click resolves to, the
    toggle rule, the detail text, and the visibility of every floor and
    marker. */
module Selection {
  import opened Layout

  datatype Option<T> = None | Some(value: T)

  /** The selection is either nothing (`null` in the component's state) or
      the index of one of the seven floors. */
  predicate InRange(sel: Option<nat>)
  {
    sel.Some? ==> sel.value < FloorCount
  }

  /** The update `prev === index ? null : index` that a click on floor
      `index` applies to the selection: a click on the selected floor clears
      the selection, any other click selects the clicked floor. */
  function Toggle(prev: Option<nat>, index: nat): (next: Option<nat>)
    ensures next == None <==> prev == Some(index)
    ensures next != None ==> next == Some(index)
  {
    if prev == Some(index) then None else Some(index)
  }

  /** Position of the first occurrence of `x` in `s`, or -1 when `x` does not
      occur (JavaScript's `Array.prototype.indexOf`, which compares objects by
      identity). */
  function IndexOf<T(==)>(s: seq<T>, x: T): (r: int)
    ensures -1 <= r < |s|
    ensures r == -1 <==> x !in s
    ensures 0 <= r ==> s[r] == x && x !in s[..r]
  {
    if |s| == 0 then -1
    else if s[0] == x then 0
    else
      var i := IndexOf(s[1..], x);
      assert s[1..][..i + 1] == s[..i + 2][1..];
      if i == -1 then -1 else i + 1
  }

  /** The floor a click resolves to, given the objects the ray hit, nearest
      first: the index of the nearest hit among the floors, and nothing when
      the ray hit nothing or its nearest hit is not a floor. */
  function PickedFloor<T(==)>(floors: seq<T>, intersects: seq<T>): (hit: Option<nat>)
    ensures hit != None <==> |intersects| > 0 && intersects[0] in floors
    ensures hit != None ==> hit.value < |floors| && floors[hit.value] == intersects[0]
  {
    if |intersects| > 0 then
      var index := IndexOf(floors, intersects[0]);
      if index != -1 then Some(index) else None
    else
      None
  }

  /** The selection after a click whose resolved floor is `hit`: a click
      that resolves to no floor leaves it alone, one that resolves to a floor
      toggles that floor. The new selection is always the old one or the
      clicked floor, and it is empty only when it was empty or the selected
      floor was clicked. */
  function AfterClick(sel: Option<nat>, hit: Option<nat>): (next: Option<nat>)
    ensures next != sel ==> hit != None
    ensures next == sel || next == hit || next == None
    ensures next == None ==> sel == None || sel == hit
    ensures InRange(sel) && InRange(hit) ==> InRange(next)
  {
    match hit
    case None => sel
    case Some(index) => Toggle(sel, index)
  }

  /** The three transitions of the state machine and the missed click. */
  lemma ClickTransitions(sel: Option<nat>, i: nat)
    ensures AfterClick(None, Some(i)) == Some(i)
    ensures AfterClick(Some(i), Some(i)) == None
    ensures sel != Some(i) ==> AfterClick(sel, Some(i)) == Some(i)
    ensures AfterClick(sel, None) == sel
  {
  }

  /** Clicking the same floor twice: from nothing or from that floor the
      selection comes back to where it was; from another floor it ends at
      nothing, since the first click selects the clicked floor. */
  lemma ClickTwice(sel: Option<nat>, hit: Option<nat>)
    ensures sel == None || hit == None || sel == hit ==> AfterClick(AfterClick(sel, hit), hit) == sel
    ensures hit != None && sel != hit ==> AfterClick(AfterClick(sel, hit), hit) == None
  {
  }

  /** A click resolved against the seven floors never takes the selection out
      of the range 0..6. */
  lemma ClickKeepsRange<T>(sel: Option<nat>, floors: seq<T>, intersects: seq<T>)
    requires InRange(sel) && |floors| == FloorCount
    ensures InRange(AfterClick(sel, PickedFloor(floors, intersects)))
    ensures |intersects| == 0 ==> AfterClick(sel, PickedFloor(floors, intersects)) == sel
    ensures |intersects| > 0 && intersects[0] !in floors ==> AfterClick(sel, PickedFloor(floors, intersects)) == sel
  {
  }

  /** The text of the detail panel for each floor, by index: one entry per
      floor, no two alike. */
  function FloorDetails(): (details: seq<string>)
    ensures |details| == FloorCount
    ensures forall i, j :: 0 <= i < j < |details| ==> details[i] != details[j]
  {
    [
      "First Floor Details",
      "Second Floor Details",
      "Third Floor Details",
      "Fourth Floor Details",
      "Fifth Floor Details",
      "Sixth Floor Details",
      "Seventh Floor Details"
    ]
  }

  /** What the detail panel shows: nothing when no floor is selected, and the
      selected floor's entry of FloorDetails otherwise. */
  function DetailText(sel: Option<nat>): (text: string)
    requires InRange(sel)
    ensures text == "" <==> sel == None
    ensures sel != None ==> text == FloorDetails()[sel.value]
  {
    if sel != None then FloorDetails()[sel.value] else ""
  }

  /** Different selections show different texts, so the panel tells the user
      which floor is selected; floor 3 shows the fourth entry. */
  lemma DetailTextIdentifiesSelection(a: Option<nat>, b: Option<nat>)
    requires InRange(a) && InRange(b)
    ensures DetailText(a) == DetailText(b) ==> a == b
    ensures DetailText(Some(3)) == "Fourth Floor Details"
  {
  }

  /** Whether floor `i` is shown: `selectedFloor === null || index === selectedFloor`.
      Every floor is shown when nothing is selected, otherwise the selected
      floor alone. */
  predicate FloorShown(sel: Option<nat>, i: int): (shown: bool)
    ensures sel == None ==> shown
    ensures sel != None ==> (shown <==> i == sel.value)
  {
    sel == None || (sel.Some? && i == sel.value)
  }

  /** Whether the markers of floor `i` are shown: `index === selectedFloor`.
      Markers are shown only on a shown floor, and only while a floor is
      selected. */
  predicate MarkersShown(sel: Option<nat>, i: int): (shown: bool)
    ensures shown ==> FloorShown(sel, i) && sel != None
    ensures sel != None ==> (shown <==> FloorShown(sel, i))
  {
    sel.Some? && i == sel.value
  }

  /** What a synchronised scene displays: a visibility flag per floor, one per
      marker (markers[f][k] for marker k of floor f) and the panel text. */
  datatype View = View(floors: seq<bool>, markers: seq<seq<bool>>, text: string)

  /** The view the synchroniser derives from the selection, and from nothing
      else. */
  function ViewOf(sel: Option<nat>): (v: View)
    requires InRange(sel)
    ensures |v.floors| == FloorCount && |v.markers| == FloorCount
    ensures forall f :: 0 <= f < FloorCount ==> |v.markers[f]| == MarkersPerFloor
  {
    View(seq(FloorCount, f => FloorShown(sel, f)),
         seq(FloorCount, f => seq(MarkersPerFloor, k => MarkersShown(sel, f))),
         DetailText(sel))
  }

  /** Number of `true` entries of `s`. */
  function CountTrue(s: seq<bool>): nat
  {
    if |s| == 0 then 0 else CountTrue(s[..|s| - 1]) + (if s[|s| - 1] then 1 else 0)
  }

  /** Number of shown markers over all floors. */
  function MarkerTotal(m: seq<seq<bool>>): nat
  {
    if |m| == 0 then 0 else MarkerTotal(m[..|m| - 1]) + CountTrue(m[|m| - 1])
  }

  /** A flag sequence that is `true` exactly on `lo..hi` has `hi - lo` shown
      entries. */
  lemma {:induction false} CountTrueRange(s: seq<bool>, lo: nat, hi: nat)
    requires lo <= hi <= |s|
    requires forall j :: 0 <= j < |s| ==> (s[j] <==> lo <= j < hi)
    ensures CountTrue(s) == hi - lo
  {
    if |s| > 0 {
      var t := s[..|s| - 1];
      var lo', hi' := if lo < |t| then lo else |t|, if hi < |t| then hi else |t|;
      assert forall j :: 0 <= j < |t| ==> t[j] == s[j];
      CountTrueRange(t, lo', hi');
    }
  }

  /** When only row `i` has shown markers (`i` outside the rows for none), the
      total is the count of row `i`. */
  lemma {:induction false} MarkerTotalOfRow(m: seq<seq<bool>>, i: int, n: nat)
    requires forall j :: 0 <= j < |m| ==> CountTrue(m[j]) == if j == i then n else 0
    ensures MarkerTotal(m) == if 0 <= i < |m| then n else 0
  {
    if |m| > 0 {
      var t := m[..|m| - 1];
      assert forall j :: 0 <= j < |t| ==> t[j] == m[j];
      MarkerTotalOfRow(t, i, n);
    }
  }

  /** With nothing selected every floor is shown, no marker is shown and the
      panel is empty. */
  lemma NothingSelectedShowsAll()
    ensures var v := ViewOf(None);
      (forall f :: 0 <= f < FloorCount ==> v.floors[f]) &&
      (forall f, k :: 0 <= f < FloorCount && 0 <= k < MarkersPerFloor ==> !v.markers[f][k]) &&
      CountTrue(v.floors) == FloorCount && MarkerTotal(v.markers) == 0 &&
      v.text == ""
  {
    var v := ViewOf(None);
    CountTrueRange(v.floors, 0, FloorCount);
    forall f | 0 <= f < FloorCount
      ensures CountTrue(v.markers[f]) == 0
    {
      CountTrueRange(v.markers[f], 0, 0);
    }
    MarkerTotalOfRow(v.markers, -1, 0);
  }

  /** With floor `i` selected, floor `i` is the only floor shown, its five
      markers are shown, every marker of every other floor is hidden, and the
      panel shows the floor's details. */
  lemma SelectionIsolatesFloor(i: nat)
    requires i < FloorCount
    ensures var v := ViewOf(Some(i));
      (forall f :: 0 <= f < FloorCount ==> (v.floors[f] <==> f == i)) &&
      (forall f, k :: 0 <= f < FloorCount && 0 <= k < MarkersPerFloor ==> (v.markers[f][k] <==> f == i)) &&
      CountTrue(v.floors) == 1 &&
      CountTrue(v.markers[i]) == MarkersPerFloor &&
      MarkerTotal(v.markers) == MarkersPerFloor &&
      v.text == FloorDetails()[i]
  {
    var v := ViewOf(Some(i));
    CountTrueRange(v.floors, i, i + 1);
    forall f | 0 <= f < FloorCount
      ensures CountTrue(v.markers[f]) == if f == i then MarkersPerFloor else 0
    {
      if f == i {
        CountTrueRange(v.markers[f], 0, MarkersPerFloor);
      } else {
        CountTrueRange(v.markers[f], 0, 0);
      }
    }
    MarkerTotalOfRow(v.markers, i, MarkersPerFloor);
  }

  /** For every selection: markers are shown only on a shown floor, and the
      numbers of shown floors and markers are 7 and 0 with nothing selected,
      1 and 5 otherwise. */
  lemma ViewInvariant(sel: Option<nat>)
    requires InRange(sel)
    ensures var v := ViewOf(sel);
      (forall f, k :: 0 <= f < FloorCount && 0 <= k < MarkersPerFloor && v.markers[f][k] ==> v.floors[f]) &&
      CountTrue(v.floors) == (if sel == None then FloorCount else 1) &&
      MarkerTotal(v.markers) == (if sel == None then 0 else MarkersPerFloor)
  {
    if sel == None {
      NothingSelectedShowsAll();
    } else {
      SelectionIsolatesFloor(sel.value);
    }
  }

  /** Starting with nothing selected, a click on floor 2 shows floor 2 alone
      with its markers and "Third Floor Details"; a second click on floor 2
      shows all seven floors, no marker and an empty panel. */
  lemma ThirdFloorScenario()
    ensures AfterClick(None, Some(2)) == Some(2)
    ensures ViewOf(Some(2)).floors == [false, false, true, false, false, false, false]
    ensures ViewOf(Some(2)).markers[2] == [true, true, true, true, true]
    ensures MarkerTotal(ViewOf(Some(2)).markers) == MarkersPerFloor
    ensures ViewOf(Some(2)).text == "Third Floor Details"
    ensures AfterClick(Some(2), Some(2)) == None
    ensures ViewOf(None).floors == [true, true, true, true, true, true, true]
    ensures MarkerTotal(ViewOf(None).markers) == 0
    ensures ViewOf(None).text == ""
  {
    SelectionIsolatesFloor(2);
    NothingSelectedShowsAll();
  }
}
