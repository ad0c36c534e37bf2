/** The scene of the seven-floor building: the floor and marker meshes, whose
    visibility flags are written in place, and the `Building` that owns them,
    holds the selection and runs the click handler and the per-frame
    visibility update.

    In the component the whole scene is torn down and rebuilt each time the
    selection changes (the effect depends on the selection). Each rebuild
    produces the same layout, and the selection itself survives in the
    component's state, so this model keeps ONE persistent building whose
    `selected` field changes. */
module Scene {
  import opened Layout
  import opened Selection

  /** A Three.js mesh, reduced to the two properties the core touches. */
  class Mesh {
    var position: Vec3
    var visible: bool

    /** A new object sits at the origin and is visible. */
    constructor ()
      ensures position == Origin && visible
    {
      position := Origin;
      visible := true;
    }
  }

  /** What a mesh of the building is: floor `floor`, or marker `marker` of
      floor `floor`. */
  datatype Part = FloorPart(floor: nat) | MarkerPart(floor: nat, marker: nat)

  /** `m` is the mesh that `part` names among `floors` and `pointers`. */
  ghost predicate IsPartOf(floors: seq<Mesh>, pointers: seq<seq<Mesh>>, m: Mesh, part: Part)
  {
    match part
    case FloorPart(f) => f < |floors| && floors[f] == m
    case MarkerPart(f, k) => f < |pointers| && k < |pointers[f]| && pointers[f][k] == m
  }

  /** Whether the mesh that is `part` is shown when the selection is `sel`. */
  predicate PartShown(sel: Option<nat>, part: Part)
  {
    match part
    case FloorPart(f) => FloorShown(sel, f)
    case MarkerPart(f, _) => MarkersShown(sel, f)
  }

  /** `createFloor(yPosition)`: a new visible slab at height `y`. */
  method CreateFloor(y: real) returns (floor: Mesh)
    ensures fresh(floor)
    ensures floor.position == Origin.(y := y) && floor.visible
  {
    floor := new Mesh();
    floor.position := floor.position.(y := y);
  }

  /** `Array.from({ length: 7 }, (_, i) => createFloor(i * 3))`: seven new
      visible slabs, floor `i` at FloorPosition(i). `role` records which
      floor each new mesh is. */
  method CreateFloors() returns (floors: seq<Mesh>, ghost role: map<Mesh, Part>)
    ensures |floors| == FloorCount
    ensures forall i :: 0 <= i < FloorCount ==>
      fresh(floors[i]) && floors[i].position == FloorPosition(i) && floors[i].visible
    ensures forall i :: 0 <= i < FloorCount ==> floors[i] in role && role[floors[i]] == FloorPart(i)
    ensures forall m :: m in role ==> fresh(m) && IsPartOf(floors, [], m, role[m])
  {
    floors, role := [], map[];
    for i := 0 to FloorCount
      invariant |floors| == i
      invariant forall j :: 0 <= j < i ==>
        fresh(floors[j]) && floors[j].position == FloorPosition(j) && floors[j].visible
      invariant forall j :: 0 <= j < i ==> floors[j] in role && role[floors[j]] == FloorPart(j)
      invariant forall m :: m in role ==> fresh(m) && IsPartOf(floors, [], m, role[m])
    {
      var floor := CreateFloor(FloorY(i));
      role := role[floor := FloorPart(i)];
      floors := floors + [floor];
    }
  }

  /** The body of the `floors.map` callback in `createPointers()`: five new
      hidden markers for floor `f` placed at `floor`, marker `k` copied from
      the floor's position and moved by MarkerOffset(k). `role` records which
      marker each new mesh is. */
  method CreatePointersOnFloor(floor: Vec3, f: nat) returns (pointersOnFloor: seq<Mesh>, ghost role: map<Mesh, Part>)
    ensures |pointersOnFloor| == MarkersPerFloor
    ensures forall k :: 0 <= k < MarkersPerFloor ==>
      fresh(pointersOnFloor[k]) && !pointersOnFloor[k].visible &&
      pointersOnFloor[k].position == MarkerPosition(floor, k)
    ensures forall k :: 0 <= k < MarkersPerFloor ==>
      pointersOnFloor[k] in role && role[pointersOnFloor[k]] == MarkerPart(f, k)
    ensures forall m :: m in role ==>
      fresh(m) && role[m].MarkerPart? && role[m].floor == f &&
      role[m].marker < |pointersOnFloor| && pointersOnFloor[role[m].marker] == m
  {
    pointersOnFloor, role := [], map[];
    for k := 0 to MarkersPerFloor
      invariant |pointersOnFloor| == k
      invariant forall l :: 0 <= l < k ==>
        fresh(pointersOnFloor[l]) && !pointersOnFloor[l].visible &&
        pointersOnFloor[l].position == MarkerPosition(floor, l)
      invariant forall l :: 0 <= l < k ==>
        pointersOnFloor[l] in role && role[pointersOnFloor[l]] == MarkerPart(f, l)
      invariant forall m :: m in role ==>
        fresh(m) && role[m].MarkerPart? && role[m].floor == f &&
        role[m].marker < |pointersOnFloor| && pointersOnFloor[role[m].marker] == m
    {
      var pointer := new Mesh();
      pointer.position := floor;
      pointer.position := pointer.position.(x := pointer.position.x + (k as real - 2.0) * 1.5);
      pointer.position := pointer.position.(y := pointer.position.y + 0.75);
      pointer.visible := false;
      role := role[pointer := MarkerPart(f, k)];
      pointersOnFloor := pointersOnFloor + [pointer];
    }
  }

  /** Putting the floors' roles and the markers' roles together, when no
      mesh has both, names every mesh of the building exactly once. */
  lemma MergeRoles(floors: seq<Mesh>, pointers: seq<seq<Mesh>>,
                   floorRole: map<Mesh, Part>, markerRole: map<Mesh, Part>)
    requires |floors| == FloorCount && |pointers| == FloorCount
    requires forall f :: 0 <= f < FloorCount ==> |pointers[f]| == MarkersPerFloor
    requires forall f :: 0 <= f < FloorCount ==> floors[f] in floorRole && floorRole[floors[f]] == FloorPart(f)
    requires forall f, k :: 0 <= f < FloorCount && 0 <= k < MarkersPerFloor ==>
      pointers[f][k] in markerRole && markerRole[pointers[f][k]] == MarkerPart(f, k)
    requires forall m :: m in floorRole ==> IsPartOf(floors, [], m, floorRole[m])
    requires forall m :: m in markerRole ==> IsPartOf([], pointers, m, markerRole[m])
    requires forall f :: 0 <= f < FloorCount ==> floors[f] !in markerRole
    ensures var role := floorRole + markerRole;
      (forall f :: 0 <= f < FloorCount ==> floors[f] in role && role[floors[f]] == FloorPart(f)) &&
      (forall f, k :: 0 <= f < FloorCount && 0 <= k < MarkersPerFloor ==>
        pointers[f][k] in role && role[pointers[f][k]] == MarkerPart(f, k)) &&
      (forall m :: m in role ==> IsPartOf(floors, pointers, m, role[m]))
  {
  }

  /** `createPointers()`: the markers of every floor, `pointers[f]` for
      floor `f`. `role` records which marker each new mesh is. */
  method CreatePointers(floors: seq<Mesh>) returns (pointers: seq<seq<Mesh>>, ghost role: map<Mesh, Part>)
    ensures |pointers| == |floors|
    ensures forall f :: 0 <= f < |floors| ==> |pointers[f]| == MarkersPerFloor
    ensures forall f, k :: 0 <= f < |floors| && 0 <= k < MarkersPerFloor ==>
      fresh(pointers[f][k]) && !pointers[f][k].visible &&
      pointers[f][k].position == MarkerPosition(floors[f].position, k)
    ensures forall f, k :: 0 <= f < |floors| && 0 <= k < MarkersPerFloor ==>
      pointers[f][k] in role && role[pointers[f][k]] == MarkerPart(f, k)
    ensures forall m :: m in role ==> fresh(m) && IsPartOf([], pointers, m, role[m])
  {
    pointers, role := [], map[];
    for f := 0 to |floors|
      invariant |pointers| == f
      invariant forall g :: 0 <= g < f ==> |pointers[g]| == MarkersPerFloor
      invariant forall g, k :: 0 <= g < f && 0 <= k < MarkersPerFloor ==>
        fresh(pointers[g][k]) && !pointers[g][k].visible &&
        pointers[g][k].position == MarkerPosition(floors[g].position, k)
      invariant forall g, k :: 0 <= g < f && 0 <= k < MarkersPerFloor ==>
        pointers[g][k] in role && role[pointers[g][k]] == MarkerPart(g, k)
      invariant forall m :: m in role ==> fresh(m) && IsPartOf([], pointers, m, role[m])
    {
      var pointersOnFloor, floorRole := CreatePointersOnFloor(floors[f].position, f);
      assert forall m :: m in floorRole ==> m !in role;
      role := role + floorRole;
      pointers := pointers + [pointersOnFloor];
    }
  }

  class Building {
    /** The seven floor slabs, bottom to top. */
    const floors: seq<Mesh>
    /** pointers[f][k] is marker k of floor f. */
    const pointers: seq<seq<Mesh>>
    /** Which part of the building each mesh is; its keys are exactly the
        building's 42 meshes, and it tells them apart. */
    ghost const Role: map<Mesh, Part>
    /** The selected floor, if any (`selectedFloor`). */
    var selected: Option<nat>
    /** The text of the detail panel (`floorDetailsDiv.innerHTML`). */
    var panelText: string

    /** Seven floors with five markers each, every mesh distinct, and a
        selection in range. */
    ghost predicate Valid()
      reads this
    {
      |floors| == FloorCount && |pointers| == FloorCount &&
      (forall f :: 0 <= f < FloorCount ==> |pointers[f]| == MarkersPerFloor) &&
      (forall f :: 0 <= f < FloorCount ==> floors[f] in Role && Role[floors[f]] == FloorPart(f)) &&
      (forall f, k :: 0 <= f < FloorCount && 0 <= k < MarkersPerFloor ==>
        pointers[f][k] in Role && Role[pointers[f][k]] == MarkerPart(f, k)) &&
      (forall m :: m in Role ==> IsPartOf(floors, pointers, m, Role[m])) &&
      InRange(selected)
    }

    /** Floor `f` sits at FloorPosition(f) and its marker `k` at
        MarkerPosition(FloorPosition(f), k). */
    ghost predicate LaidOut()
      requires Valid()
      reads this, Role.Keys
    {
      (forall f :: 0 <= f < FloorCount ==> floors[f].position == FloorPosition(f)) &&
      (forall f, k :: 0 <= f < FloorCount && 0 <= k < MarkersPerFloor ==>
        pointers[f][k].position == MarkerPosition(FloorPosition(f), k))
    }

    /** The meshes and the panel display the view `v`. */
    ghost predicate Shows(v: View)
      requires Valid()
      reads this, Role.Keys
    {
      |v.floors| == FloorCount && |v.markers| == FloorCount &&
      (forall f :: 0 <= f < FloorCount ==> |v.markers[f]| == MarkersPerFloor) &&
      (forall f :: 0 <= f < FloorCount ==> floors[f].visible == v.floors[f]) &&
      (forall f, k :: 0 <= f < FloorCount && 0 <= k < MarkersPerFloor ==>
        pointers[f][k].visible == v.markers[f][k]) &&
      panelText == v.text
    }

    /** Every mesh's flag is what the selection `sel` asks for its part. */
    ghost predicate Displays(sel: Option<nat>)
      requires Valid()
      reads this, Role.Keys
    {
      forall m :: m in Role ==> m.visible == PartShown(sel, Role[m])
    }

    /** The meshes and the panel show the view of `sel` exactly when each
        mesh's flag is the one `sel` asks for its part and the panel holds
        the detail text of `sel`. */
    lemma ShowsIffDisplays(sel: Option<nat>)
      requires Valid() && InRange(sel)
      ensures Shows(ViewOf(sel)) <==> Displays(sel) && panelText == DetailText(sel)
    {
      var v := ViewOf(sel);
      if Shows(v) {
        forall m | m in Role
          ensures m.visible == PartShown(sel, Role[m])
        {
          match Role[m]
          case FloorPart(f) =>
            assert floors[f] == m;
          case MarkerPart(f, k) =>
            assert pointers[f][k] == m;
        }
      }
      if Displays(sel) {
        assert forall f :: 0 <= f < FloorCount ==> floors[f].visible == v.floors[f];
        assert forall f, k :: 0 <= f < FloorCount && 0 <= k < MarkersPerFloor ==>
          pointers[f][k].visible == v.markers[f][k];
      }
    }

    /** Builds the floors, then their markers: every floor visible, every
        marker hidden, nothing selected and an empty panel. */
    constructor ()
      ensures Valid() && LaidOut() && fresh(Role.Keys)
      ensures selected == None && panelText == ""
      ensures forall f :: 0 <= f < FloorCount ==> floors[f].visible
      ensures forall f, k :: 0 <= f < FloorCount && 0 <= k < MarkersPerFloor ==> !pointers[f][k].visible
    {
      var fl, floorRole := CreateFloors();
      var ps, markerRole := CreatePointers(fl);
      assert forall f :: 0 <= f < FloorCount ==> fl[f] !in markerRole;
      MergeRoles(fl, ps, floorRole, markerRole);
      forall f, k | 0 <= f < FloorCount && 0 <= k < MarkersPerFloor
        ensures ps[f][k].position == MarkerPosition(FloorPosition(f), k)
      {
        assert fl[f].position == FloorPosition(f);
      }
      floors, pointers := fl, ps;
      Role := floorRole + markerRole;
      selected := None;
      panelText := "";
    }

    /** `handleClick` after the ray cast: `intersects` are the floors the ray
        hit, nearest first. A hit that resolves to a floor index toggles the
        selection; no hit, or a hit that is not a floor, changes nothing. */
    method Click(intersects: seq<Mesh>)
      requires Valid()
      modifies this`selected
      ensures Valid()
      ensures selected == AfterClick(old(selected), PickedFloor(floors, intersects))
    {
      if |intersects| > 0 {
        var hit := intersects[0];
        var index := IndexOf(floors, hit);
        if index != -1 {
          selected := Toggle(selected, index);
        }
      }
    }

    /** The `floors.forEach` loop of `updateVisibility`: every floor is
        shown when nothing is selected and only the selected floor otherwise,
        and only the selected floor's markers are shown. A flag that already
        had its value keeps it. */
    method UpdateFlags()
      requires Valid()
      modifies Role.Keys`visible
      ensures Displays(selected)
      ensures forall m :: m in Role && old(m.visible) == PartShown(selected, Role[m]) ==> m.visible == old(m.visible)
    {
      for index := 0 to |floors|
        invariant forall m :: m in Role && Role[m].floor < index ==> m.visible == PartShown(selected, Role[m])
      {
        var floor := floors[index];
        floor.visible := selected == None || selected == Some(index);
        // A shown floor is also sent towards a quarter turn by a tween; the
        // rotation is not part of this model.
        var floorPointers := pointers[index];
        for k := 0 to |floorPointers|
          invariant forall m :: m in Role && (Role[m].floor < index || Role[m] == FloorPart(index) ||
                                              (Role[m].floor == index && Role[m].marker < k)) ==>
            m.visible == PartShown(selected, Role[m])
        {
          floorPointers[k].visible := selected == Some(index);
        }
      }
    }

    /** `updateVisibility`: the flags, then the detail text. Afterwards the
        scene shows the view of the selection, and since that view depends on
        the selection alone, a second call changes nothing. */
    method UpdateVisibility()
      requires Valid()
      modifies Role.Keys`visible, this`panelText
      ensures Valid() && selected == old(selected)
      ensures Shows(ViewOf(selected))
      ensures old(Shows(ViewOf(selected))) ==> forall m :: m in Role ==> m.visible == old(m.visible)
    {
      ShowsIffDisplays(selected);
      UpdateFlags();
      panelText := if selected != None then FloorDetails()[selected.value] else "";
      ShowsIffDisplays(selected);
    }

    /** A click followed by the next frame of the animation loop. */
    method ClickThenFrame(intersects: seq<Mesh>)
      requires Valid()
      modifies this`selected, Role.Keys`visible, this`panelText
      ensures Valid()
      ensures selected == AfterClick(old(selected), PickedFloor(floors, intersects))
      ensures panelText == DetailText(selected)
    {
      Click(intersects);
      Frame();
    }

    /** A ray whose nearest hit is floor `i` resolves to floor `i`: the floor
        meshes are distinct, so `indexOf` finds the hit mesh at its own
        index. */
    lemma PickOfFloorIsItsIndex(i: nat, intersects: seq<Mesh>)
      requires Valid() && i < FloorCount
      requires |intersects| > 0 && intersects[0] == floors[i]
      ensures PickedFloor(floors, intersects) == Some(i)
    {
      var hit := PickedFloor(floors, intersects);
      assert Role[floors[hit.value]] == FloorPart(hit.value);
    }

    /** One frame of the animation loop: the tween tick and the rendering
        are left out, what remains is the visibility update. */
    method Frame()
      requires Valid()
      modifies Role.Keys`visible, this`panelText
      ensures Valid() && selected == old(selected)
      ensures Shows(ViewOf(selected))
      ensures panelText == DetailText(selected)
    {
      UpdateVisibility();
    }
  }

  /** The user clicks floor 2 and a frame is drawn, then clicks it again and
      another frame is drawn: the panel first shows "Third Floor Details",
      then nothing. (The floor flags of the same scenario are in
      Selection.ThirdFloorScenario.) */
  method ClickSameFloorTwice() returns (firstText: string, secondText: string)
    ensures firstText == "Third Floor Details" && secondText == ""
  {
    var b := new Building();
    b.PickOfFloorIsItsIndex(2, [b.floors[2]]);
    b.ClickThenFrame([b.floors[2]]);
    firstText := b.panelText;
    b.ClickThenFrame([b.floors[2]]);
    secondText := b.panelText;
  }
}
