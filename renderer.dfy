/**
  The renderer embedded in the host page: its module-level state (the units
  last laid out, the selected unit group, the document, whether the host shows
  a popup) and the handlers that change it (clicks, arrow keys and the
  messages the host posts). The drawing surface is represented by the unit
  groups it holds: group `g` is the group drawn for `allUnits[g]`, and
  `highlighted` is the set of groups drawn with the selection stroke. Messages
  posted to the host are appended to `outbox`.
 */
module FloorPlanView {
  import opened Wrappers
  import opened StableSort
  import opened Document
  import opened Layout
  import opened LayoutFacts
  import opened Navigation

  /** A message posted to the host window. */
  datatype OutMessage =
    | DataProcessed(usedUnitTypes: seq<string>, structure: MapData)
    | UnitClick(unit: PlacedUnit)
    | StageClick
    | UpdatedDataJson(payload: Option<MapData>)

  /** A message the host posts to the renderer. */
  datatype InMessage =
    | LoadData(payload: Option<MapData>)
    | ResetView
    | DeselectAllRequest
    | SetPopupVisibility(isVisible: bool)
    | UpdateUnitRequest(id: string, labelText: string, unitType: string)
    | AddUnitRequest(sectionName: string, floorName: string, labelText: string, unitType: string)
    | DeleteUnitRequest(id: string)
    | GetDataAsJson
    | Unknown

  /** The floors of one section in drawing order, each with its units sorted,
      together with the largest unit count and the unit types seen so far: the
      first pass of the layout over a section. */
  method OrderSection(s: Section, used0: seq<string>) returns (floors: seq<Floor>, maxUnits: nat, used: seq<string>)
    ensures floors == OrderedFloors(s)
    ensures maxUnits == MaxUnits(floors)
    ensures used == CollectTypes(used0, FloorsUnits(floors))
  {
    var sorted := SortFloors(s.floors);
    floors, maxUnits, used := SortEachFloor(sorted, used0);
  }

  /** The loop over the sorted copy of a section's floors: each floor's units
      are sorted, the largest count is kept and the unit types are collected. */
  method SortEachFloor(sorted: seq<Floor>, used0: seq<string>) returns (floors: seq<Floor>, maxUnits: nat, used: seq<string>)
    ensures floors == Map(SortFloorUnits, sorted)
    ensures maxUnits == MaxUnits(floors)
    ensures used == CollectTypes(used0, FloorsUnits(floors))
  {
    ghost var target := Map(SortFloorUnits, sorted);
    floors := [];
    maxUnits := 0;
    used := used0;
    var k := 0;
    while k < |sorted|
      invariant 0 <= k <= |sorted| == |target|
      invariant floors == target[..k]
      invariant maxUnits == MaxUnits(floors)
      invariant used == CollectTypes(used0, FloorsUnits(floors))
    {
      var f;
      f, maxUnits, used := OrderFloor(sorted[k], maxUnits, used, floors, used0);
      PrefixSnoc(target, k);
      floors := floors + [f];
      k := k + 1;
    }
    assert floors == target;
  }

  /** One step of that loop: the floor's units sorted in place, the running
      maximum and the running set of unit types brought up to date. */
  method OrderFloor(floor: Floor, maxUnits0: nat, used1: seq<string>, ghost done: seq<Floor>, ghost used0: seq<string>)
    returns (f: Floor, maxUnits: nat, used: seq<string>)
    requires maxUnits0 == MaxUnits(done)
    requires used1 == CollectTypes(used0, FloorsUnits(done))
    ensures f == SortFloorUnits(floor)
    ensures maxUnits == MaxUnits(done + [f])
    ensures used == CollectTypes(used0, FloorsUnits(done + [f]))
  {
    f := SortFloorUnits(floor);
    maxUnits := maxUnits0;
    if |f.units| > maxUnits {
      maxUnits := |f.units|;
    }
    used := CollectFloorTypes(used1, f.units);
    MaxUnitsSnoc(done, f);
    CollectTypesAppend(used0, FloorsUnits(done), f.units);
    FloorsUnitsSnoc(done, f);
  }

  lemma FloorsUnitsSnoc(fs: seq<Floor>, f: Floor)
    ensures FloorsUnits(fs + [f]) == FloorsUnits(fs) + f.units
  {
    FloorsUnitsAppend(fs, [f]);
    assert FloorsUnits([f]) == f.units;
  }

  /** The widest of some floors and one more. */
  lemma MaxUnitsSnoc(fs: seq<Floor>, f: Floor)
    ensures MaxUnits(fs + [f]) == if |f.units| > MaxUnits(fs) then |f.units| else MaxUnits(fs)
  {
    assert (fs + [f])[..|fs|] == fs;
  }

  /** `allUnits` after one more section has been laid out. */
  lemma NextSection(placed: seq<SectionLayout>, sl: SectionLayout, target: seq<SectionLayout>, i: nat)
    requires i < |target| && placed == target[..i] && sl == target[i]
    ensures placed + [sl] == target[..i + 1]
    ensures SectionsPlaced(placed + [sl]) == SectionsPlaced(placed) + FloorsPlaced(sl.floors)
  {
    PrefixSnoc(target, i);
    SectionsPlacedAppend(placed, [sl]);
    assert SectionsPlaced([sl]) == FloorsPlaced(sl.floors);
  }

  /** The unit types seen after one more section in drawing order. */
  lemma NextTypes(ss: seq<Section>, i: nat, used: seq<string>, used': seq<string>)
    requires i < |ss|
    requires used == CollectTypes([], SectionsUnits(ss[..i]))
    requires used' == CollectTypes(used, FloorsUnits(ss[i].floors))
    ensures used' == CollectTypes([], SectionsUnits(ss[..i + 1]))
  {
    PrefixSnoc(ss, i);
    SectionsUnitsAppend(ss[..i], [ss[i]]);
    assert SectionsUnits([ss[i]]) == FloorsUnits(ss[i].floors);
    CollectTypesAppend([], SectionsUnits(ss[..i]), FloorsUnits(ss[i].floors));
  }

  /** `units.forEach(u => usedUnitTypes.add(u.unitType))`. */
  method CollectFloorTypes(used0: seq<string>, units: seq<UnitData>) returns (used: seq<string>)
    ensures used == CollectTypes(used0, units)
  {
    used := used0;
    var j := 0;
    while j < |units|
      invariant 0 <= j <= |units|
      invariant used == CollectTypes(used0, units[..j])
    {
      CollectTypesAppend(used0, units[..j], [units[j]]);
      assert units[..j + 1] == units[..j] + [units[j]];
      used := AddType(used, units[j].unitType);
      j := j + 1;
    }
    assert units[..j] == units;
  }

  /** `originalData.sections.forEach(s => ...)`: every floor of every section
      loses its units with the id. */
  method FilterSections(sections0: seq<Section>, id: string) returns (sections: seq<Section>)
    ensures sections == DeleteFromSections(sections0, id)
  {
    sections := sections0;
    var i := 0;
    while i < |sections|
      invariant 0 <= i <= |sections| == |sections0|
      invariant forall n :: 0 <= n < i ==> sections[n] == sections0[n].(floors := DeleteFromFloors(sections0[n].floors, id))
      invariant forall n :: i <= n < |sections| ==> sections[n] == sections0[n]
    {
      var floors := FilterFloors(sections[i].floors, id);
      sections := sections[i := sections[i].(floors := floors)];
      i := i + 1;
    }
  }

  /** `s.floors.forEach(f => { f.units = f.units.filter(u => u.id !== id) })`
      for one section: every floor loses its units with the id. */
  method FilterFloors(floors0: seq<Floor>, id: string) returns (floors: seq<Floor>)
    ensures floors == DeleteFromFloors(floors0, id)
  {
    floors := floors0;
    var k := 0;
    while k < |floors|
      invariant 0 <= k <= |floors| == |floors0|
      invariant forall n :: 0 <= n < k ==> floors[n] == floors0[n].(units := Without(floors0[n].units, id))
      invariant forall n :: k <= n < |floors| ==> floors[n] == floors0[n]
    {
      floors := floors[k := floors[k].(units := Without(floors[k].units, id))];
      k := k + 1;
    }
  }

  /** The drawn units belong to the document: none without one; with one,
      every floor holds its units sorted by label, as the layout pass leaves
      them, and the units are its layout's units in drawing order. */
  ghost predicate Drawn(data: Option<MapData>, units: seq<PlacedUnit>) {
    match data
    case None => units == []
    case Some(d) =>
      (forall s, f :: s in d.sections && f in s.floors ==> Sorted(f.units, UnitOrder)) &&
      units == AllPlaced(GenerateLayout(d))
  }

  /** Every floor of a document the layout pass has left holds its units
      sorted, and laying that document out again gives the same layout. */
  lemma NormalFloorsSorted(d: MapData)
    ensures forall s, f :: s in Normalize(d).sections && f in s.floors ==> Sorted(f.units, UnitOrder)
    ensures GenerateLayout(Normalize(d)) == GenerateLayout(d)
  {
    NormalizeSpec(d);
    forall s, f | s in Normalize(d).sections && f in s.floors
      ensures Sorted(f.units, UnitOrder)
    {
      var i :| 0 <= i < |Normalize(d).sections| && Normalize(d).sections[i] == s;
      var k :| 0 <= k < |s.floors| && s.floors[k] == f;
    }
  }

  /** The unit the keydown handler starts from, `allUnits.find` by the
      selected group's id, is the first unit with its id, which is what the
      row navigation lemmas ask of it. */
  lemma SelectedIsFirstWithItsId(units: seq<PlacedUnit>, g: nat)
    requires g < |units|
    ensures var c := FirstIndex(units, IdIs(units[g].unit.id));
            FirstWithItsId(units, c) && units[c].unit.id == units[g].unit.id
  {
    assert IdIs(units[g].unit.id)(units[g]);
  }

  class Renderer {
    var allUnits: seq<PlacedUnit>
    var lastSelected: Option<nat>
    var highlighted: set<nat>
    var originalData: Option<MapData>
    var isPopupVisible: bool
    var outbox: seq<OutMessage>

    /** The selection is a drawn group and the only highlighted one; once a
        document is loaded, it is as the layout pass leaves documents and
        `allUnits` is its layout's units. */
    ghost predicate Valid()
      reads this
    {
      (lastSelected.Some? ==> lastSelected.value < |allUnits|) &&
      highlighted == (if lastSelected.Some? then {lastSelected.value} else {}) &&
      Drawn(originalData, allUnits)
    }

    /** The state `redrawAll()` leaves after drawing document `d`: the
        document as the layout pass leaves it, its layout's units, and no
        selection. */
    ghost predicate ShowsAnew(d: MapData)
      reads this
    {
      originalData == Some(Normalize(d)) && allUnits == AllPlaced(GenerateLayout(d)) &&
      lastSelected == None && highlighted == {}
    }

    constructor ()
      ensures Valid()
      ensures allUnits == [] && lastSelected == None && originalData == None
      ensures !isPopupVisible && outbox == []
    {
      allUnits := [];
      lastSelected := None;
      highlighted := {};
      originalData := None;
      isPopupVisible := false;
      outbox := [];
    }

    /** The second pass of the layout over a section in drawing order: every
        floor one row below the previous, every unit pushed onto `allUnits`. */
    method LayOutFloors(s: Section, x: int) returns (fls: seq<FloorLayout>)
      modifies this
      ensures fls == PlaceSection(s, x).floors
      ensures allUnits == old(allUnits) + FloorsPlaced(fls)
      ensures lastSelected == old(lastSelected) && highlighted == old(highlighted)
      ensures originalData == old(originalData) && isPopupVisible == old(isPopupVisible)
      ensures outbox == old(outbox)
    {
      ghost var all0 := allUnits;
      fls := [];
      var currentY := Padding + 40;
      var k := 0;
      while k < |s.floors|
        invariant 0 <= k <= |s.floors|
        invariant currentY == FloorY(k)
        invariant fls == PlaceSection(s, x).floors[..k]
        invariant allUnits == all0 + FloorsPlaced(fls)
        invariant lastSelected == old(lastSelected) && highlighted == old(highlighted)
        invariant originalData == old(originalData) && isPopupVisible == old(isPopupVisible)
        invariant outbox == old(outbox)
      {
        var f := s.floors[k];
        ghost var all1 := allUnits;
        var units: seq<PlacedUnit> := [];
        var j := 0;
        while j < |f.units|
          invariant 0 <= j <= |f.units|
          invariant units == PlaceFloor(f, x, currentY).units[..j]
          invariant allUnits == all1 + units
          invariant lastSelected == old(lastSelected) && highlighted == old(highlighted)
          invariant originalData == old(originalData) && isPopupVisible == old(isPopupVisible)
          invariant outbox == old(outbox)
        {
          var u := PlacedUnit(f.units[j], x + FloorLabelWidth + j * 80, currentY, UnitWidth, UnitHeight);
          units := units + [u];
          allUnits := allUnits + [u];
          j := j + 1;
        }
        var fl := FloorLayout(x, currentY, "Этаж " + f.name, units);
        assert fl == PlaceSection(s, x).floors[k];
        FloorsPlacedAppend(fls, [fl]);
        assert FloorsPlaced([fl]) == units;
        fls := fls + [fl];
        currentY := currentY + UnitHeight + Padding;
        k := k + 1;
      }
    }

    /** The body of the layout pass for one section: its floors ordered and
        their units sorted, its width from the widest floor, and its units
        placed and pushed onto `allUnits`. */
    method LayOutSection(s: Section, x: int, used0: seq<string>) returns (sl: SectionLayout, width: int, used: seq<string>)
      modifies this
      ensures sl == PlaceSection(s.(floors := OrderedFloors(s)), x)
      ensures width == SectionWidth(s.(floors := OrderedFloors(s)))
      ensures used == CollectTypes(used0, FloorsUnits(OrderedFloors(s)))
      ensures allUnits == old(allUnits) + FloorsPlaced(sl.floors)
      ensures lastSelected == old(lastSelected) && highlighted == old(highlighted)
      ensures originalData == old(originalData) && isPopupVisible == old(isPopupVisible)
      ensures outbox == old(outbox)
    {
      var floors, maxUnits;
      floors, maxUnits, used := OrderSection(s, used0);
      width := FloorLabelWidth + maxUnits * 80 + Padding;
      var fls := LayOutFloors(s.(floors := floors), x);
      sl := SectionLayout(x, Padding, "Подъезд " + s.name, fls);
    }

    /** `generateStructuredLayout(originalData)`: lays out the document, sorting
        the unit list of every floor of the document in place, rebuilds
        `allUnits`, and posts the unit types seen and the document. */
    method GenerateStructuredLayout() returns (layout: PlacedLayout)
      requires originalData.Some?
      modifies this
      ensures layout == GenerateLayout(old(originalData.value))
      ensures allUnits == AllPlaced(layout)
      ensures originalData == Some(Normalize(old(originalData.value)))
      ensures outbox == old(outbox) + [DataProcessed(UsedUnitTypes(allUnits), originalData.value)]
      ensures lastSelected == old(lastSelected) && highlighted == old(highlighted)
      ensures isPopupVisible == old(isPopupVisible)
    {
      var data := originalData.value;
      ghost var ss := DrawingOrder(data).sections;
      ghost var target := LayoutOf(ss).sections;
      ghost var normTarget := Normalize(data).sections;
      var currentX := Padding;
      var placed: seq<SectionLayout> := [];
      var used: seq<string> := [];
      var norm: seq<Section> := [];
      allUnits := [];
      var i := 0;
      while i < |data.sections|
        invariant 0 <= i <= |data.sections| == |ss| == |target| == |normTarget|
        invariant currentX == SectionX(ss, i)
        invariant placed == target[..i]
        invariant allUnits == SectionsPlaced(placed)
        invariant used == CollectTypes([], SectionsUnits(ss[..i]))
        invariant norm == normTarget[..i]
        invariant originalData == old(originalData) && outbox == old(outbox)
        invariant lastSelected == old(lastSelected) && highlighted == old(highlighted)
        invariant isPopupVisible == old(isPopupVisible)
      {
        var s := data.sections[i];
        var sl, sectionWidth, used' := LayOutSection(s, currentX, used);
        assert sl == target[i];
        NextSection(placed, sl, target, i);
        NextTypes(ss, i, used, used');
        placed := placed + [sl];
        used := used';
        PrefixSnoc(normTarget, i);
        norm := norm + [s.(floors := Map(SortFloorUnits, s.floors))];
        assert SectionX(ss, i + 1) == currentX + sectionWidth + SectionPadding;
        currentX := currentX + sectionWidth + SectionPadding;
        i := i + 1;
      }
      assert placed == target;
      assert ss[..i] == ss;
      assert norm == normTarget;
      layout := PlacedLayout(placed);
      originalData := Some(MapData(norm));
      LayoutOfUnits(ss);
      outbox := outbox + [DataProcessed(used, MapData(norm))];
    }

    /** `redrawAll()`: lays out the document again and draws it; the new
        groups are all drawn unselected and nothing is selected. */
    method RedrawAll()
      requires originalData.Some?
      modifies this
      ensures Valid()
      ensures originalData == Some(Normalize(old(originalData.value)))
      ensures allUnits == AllPlaced(GenerateLayout(old(originalData.value)))
      ensures lastSelected == None && highlighted == {}
      ensures isPopupVisible == old(isPopupVisible)
      ensures outbox == old(outbox) + [DataProcessed(UsedUnitTypes(allUnits), originalData.value)]
    {
      ghost var d := originalData.value;
      var layout := GenerateStructuredLayout();
      highlighted := {};
      lastSelected := None;
      NormalFloorsSorted(d);
    }

    /** `deselectAll()`: the selected group, if any, loses the selection stroke. */
    method DeselectAll()
      requires Valid()
      modifies this
      ensures Valid()
      ensures lastSelected == None && highlighted == {}
      ensures allUnits == old(allUnits) && originalData == old(originalData)
      ensures isPopupVisible == old(isPopupVisible) && outbox == old(outbox)
    {
      if lastSelected.Some? {
        highlighted := highlighted - {lastSelected.value};
        lastSelected := None;
      }
    }

    /** `selectUnit(group)`: the group becomes the only selected one, and the
        first unit of `allUnits` with the group's id is posted to the host. */
    method SelectUnit(g: nat)
      requires Valid() && g < |allUnits|
      modifies this
      ensures Valid()
      ensures lastSelected == Some(g) && highlighted == {g}
      ensures allUnits == old(allUnits) && originalData == old(originalData)
      ensures isPopupVisible == old(isPopupVisible)
      ensures var p := FirstIndex(allUnits, IdIs(allUnits[g].unit.id));
              0 <= p <= g && outbox == old(outbox) + [UnitClick(allUnits[p])]
    {
      if lastSelected.Some? && lastSelected.value != g {
        DeselectAll();
      }
      highlighted := highlighted + {g};
      lastSelected := Some(g);
      assert IdIs(allUnits[g].unit.id)(allUnits[g]);
      var p := FirstIndex(allUnits, IdIs(allUnits[g].unit.id));
      if p >= 0 {
        outbox := outbox + [UnitClick(allUnits[p])];
      }
    }

    /** A click or tap on the stage: on a unit's rectangle (`target` is its
        group) it selects the unit; anywhere else it clears the selection and
        tells the host. */
    method Click(target: Option<nat>)
      requires Valid() && (target.Some? ==> target.value < |allUnits|)
      modifies this
      ensures Valid()
      ensures allUnits == old(allUnits) && originalData == old(originalData)
      ensures isPopupVisible == old(isPopupVisible)
      ensures target.None? ==> lastSelected == None && highlighted == {} && outbox == old(outbox) + [StageClick]
      ensures target.Some? ==>
                lastSelected == target && highlighted == {target.value} &&
                outbox == old(outbox) + [UnitClick(allUnits[FirstIndex(allUnits, IdIs(allUnits[target.value].unit.id))])]
    {
      if target.None? {
        DeselectAll();
        outbox := outbox + [StageClick];
      } else {
        SelectUnit(target.value);
      }
    }

    /** The unit the arrow key leads to from the selected group, if any. */
    ghost function KeyTarget(key: Key): Option<PlacedUnit>
      requires Valid()
      reads this
    {
      if isPopupVisible || lastSelected.None? then None
      else
        var c := FirstIndex(allUnits, IdIs(allUnits[lastSelected.value].unit.id));
        if c < 0 then None else Target(allUnits, allUnits[c], key)
    }

    /** The keydown handler: with no popup shown and a group selected, an
        arrow key selects the group of the unit it leads to (the first group
        with that unit's id); otherwise nothing changes. */
    method KeyDown(key: Key)
      requires Valid()
      modifies this
      ensures Valid()
      ensures allUnits == old(allUnits) && originalData == old(originalData)
      ensures isPopupVisible == old(isPopupVisible)
      ensures old(KeyTarget(key)).None? ==>
                lastSelected == old(lastSelected) && highlighted == old(highlighted) && outbox == old(outbox)
      ensures old(KeyTarget(key)).Some? ==>
                var v := old(KeyTarget(key)).value;
                var g := FirstIndex(allUnits, IdIs(v.unit.id));
                0 <= g && allUnits[g].unit.id == v.unit.id &&
                lastSelected == Some(g) && highlighted == {g} &&
                outbox == old(outbox) + [UnitClick(allUnits[g])]
    {
      if isPopupVisible || lastSelected.None? {
        return;
      }
      var c := FirstIndex(allUnits, IdIs(allUnits[lastSelected.value].unit.id));
      if c < 0 {
        return;
      }
      var next := Target(allUnits, allUnits[c], key);
      if next.Some? {
        TargetInUnits(allUnits, allUnits[c], key);
        var q :| 0 <= q < |allUnits| && allUnits[q] == next.value;
        assert IdIs(next.value.unit.id)(allUnits[q]);
        var g := FirstIndex(allUnits, IdIs(next.value.unit.id));
        if g >= 0 {
          SelectUnit(g);
        }
      }
    }

    /** LOAD_DATA: a present payload becomes the document and is drawn. */
    method OnLoadData(payload: Option<MapData>)
      requires Valid()
      modifies this
      ensures Valid()
      ensures payload.None? ==> unchanged(this)
      ensures payload.Some? ==>
                ShowsAnew(payload.value) &&
                outbox == old(outbox) + [DataProcessed(UsedUnitTypes(allUnits), Normalize(payload.value))]
      ensures isPopupVisible == old(isPopupVisible)
    {
      if payload.Some? {
        originalData := payload;
        RedrawAll();
      }
    }

    /** SET_POPUP_VISIBILITY: arrow keys are ignored while the host shows a popup. */
    method OnSetPopupVisibility(isVisible: bool)
      requires Valid()
      modifies this
      ensures Valid()
      ensures isPopupVisible == isVisible
      ensures allUnits == old(allUnits) && originalData == old(originalData)
      ensures lastSelected == old(lastSelected) && highlighted == old(highlighted) && outbox == old(outbox)
    {
      isPopupVisible := isVisible;
    }

    /** UPDATE_UNIT: the first unit of the document with the id takes the new
        label and type and the document is drawn again; an unknown id changes
        nothing. Without a document the handler stops at the first property
        read, changing nothing. */
    method OnUpdateUnit(id: string, labelText: string, unitType: string)
      requires Valid()
      modifies this
      ensures Valid()
      ensures old(originalData).None? || !HasId(Units(old(originalData).value), id) ==> unchanged(this)
      ensures old(originalData).Some? && HasId(Units(old(originalData).value), id) ==>
                ShowsAnew(UpdateUnit(old(originalData).value, id, labelText, unitType)) &&
                outbox == old(outbox) + [DataProcessed(UsedUnitTypes(allUnits), originalData.value)]
      ensures isPopupVisible == old(isPopupVisible)
    {
      if originalData.None? {
        return;
      }
      var d := originalData.value;
      if IndexOfId(Units(d), id).Some? {
        originalData := Some(UpdateUnit(d, id, labelText, unitType));
        RedrawAll();
      }
    }

    /** ADD_UNIT: a unit with id "unit-" followed by `stamp` (the clock
        reading), the given label and type is appended to the named floor of
        the first section with the given name, and the document is drawn
        again; without such a floor nothing changes. */
    method OnAddUnit(sectionName: string, floorName: string, labelText: string, unitType: string, stamp: string)
      requires Valid()
      modifies this
      ensures Valid()
      ensures old(originalData).None? || AddTarget(old(originalData).value, sectionName, floorName).None? ==> unchanged(this)
      ensures old(originalData).Some? && AddTarget(old(originalData).value, sectionName, floorName).Some? ==>
                ShowsAnew(AddUnit(old(originalData).value, sectionName, floorName,
                                  UnitData("unit-" + stamp, labelText, unitType))) &&
                outbox == old(outbox) + [DataProcessed(UsedUnitTypes(allUnits), originalData.value)]
      ensures isPopupVisible == old(isPopupVisible)
    {
      if originalData.None? {
        return;
      }
      var d := originalData.value;
      if AddTarget(d, sectionName, floorName).Some? {
        originalData := Some(AddUnit(d, sectionName, floorName, UnitData("unit-" + stamp, labelText, unitType)));
        RedrawAll();
      }
    }

    /** DELETE_UNIT: every floor of the document drops its units with the id,
        one floor at a time, and the document is drawn again, also when no
        unit had the id. */
    method OnDeleteUnit(id: string)
      requires Valid()
      modifies this
      ensures Valid()
      ensures old(originalData).None? ==> unchanged(this)
      ensures old(originalData).Some? ==>
                ShowsAnew(DeleteUnit(old(originalData).value, id)) &&
                outbox == old(outbox) + [DataProcessed(UsedUnitTypes(allUnits), originalData.value)]
      ensures isPopupVisible == old(isPopupVisible)
    {
      if originalData.None? {
        return;
      }
      var sections := FilterSections(originalData.value.sections, id);
      originalData := Some(MapData(sections));
      RedrawAll();
    }

    /** GET_DATA_AS_JSON: posts the document as it stands (`reconstructJSON()`), or null. */
    method OnGetDataAsJson()
      requires Valid()
      modifies this
      ensures Valid()
      ensures outbox == old(outbox) + [UpdatedDataJson(originalData)]
      ensures allUnits == old(allUnits) && originalData == old(originalData)
      ensures lastSelected == old(lastSelected) && highlighted == old(highlighted)
      ensures isPopupVisible == old(isPopupVisible)
    {
      outbox := outbox + [UpdatedDataJson(originalData)];
    }

    /** The message listener: messages from another origin, RESET_VIEW (which
        only moves the viewport) and unknown types leave the state as it is;
        the others go to their handlers. `now` is the clock reading ADD_UNIT
        builds the new unit's id from. */
    method Receive(fromAppOrigin: bool, msg: InMessage, now: string)
      requires Valid()
      modifies this
      ensures Valid()
      ensures !fromAppOrigin || msg.ResetView? || msg.Unknown? ==> unchanged(this)
      ensures fromAppOrigin && msg.LoadData? ==>
                if msg.payload.Some?
                then ShowsAnew(msg.payload.value) &&
                     outbox == old(outbox) + [DataProcessed(UsedUnitTypes(allUnits), originalData.value)] &&
                     isPopupVisible == old(isPopupVisible)
                else unchanged(this)
      ensures fromAppOrigin && msg.DeselectAllRequest? ==>
                lastSelected == None && highlighted == {} &&
                allUnits == old(allUnits) && originalData == old(originalData) &&
                isPopupVisible == old(isPopupVisible) && outbox == old(outbox)
      ensures fromAppOrigin && msg.SetPopupVisibility? ==>
                isPopupVisible == msg.isVisible &&
                allUnits == old(allUnits) && originalData == old(originalData) &&
                lastSelected == old(lastSelected) && highlighted == old(highlighted) && outbox == old(outbox)
      ensures fromAppOrigin && msg.UpdateUnitRequest? ==>
                if old(originalData).Some? && HasId(Units(old(originalData).value), msg.id)
                then ShowsAnew(UpdateUnit(old(originalData).value, msg.id, msg.labelText, msg.unitType)) &&
                     outbox == old(outbox) + [DataProcessed(UsedUnitTypes(allUnits), originalData.value)] &&
                     isPopupVisible == old(isPopupVisible)
                else unchanged(this)
      ensures fromAppOrigin && msg.AddUnitRequest? ==>
                if old(originalData).Some? && AddTarget(old(originalData).value, msg.sectionName, msg.floorName).Some?
                then ShowsAnew(AddUnit(old(originalData).value, msg.sectionName, msg.floorName,
                                       UnitData("unit-" + now, msg.labelText, msg.unitType))) &&
                     outbox == old(outbox) + [DataProcessed(UsedUnitTypes(allUnits), originalData.value)] &&
                     isPopupVisible == old(isPopupVisible)
                else unchanged(this)
      ensures fromAppOrigin && msg.DeleteUnitRequest? ==>
                if old(originalData).Some?
                then ShowsAnew(DeleteUnit(old(originalData).value, msg.id)) &&
                     outbox == old(outbox) + [DataProcessed(UsedUnitTypes(allUnits), originalData.value)] &&
                     isPopupVisible == old(isPopupVisible)
                else unchanged(this)
      ensures fromAppOrigin && msg.GetDataAsJson? ==>
                outbox == old(outbox) + [UpdatedDataJson(originalData)] &&
                allUnits == old(allUnits) && originalData == old(originalData) &&
                lastSelected == old(lastSelected) && highlighted == old(highlighted) &&
                isPopupVisible == old(isPopupVisible)
    {
      if !fromAppOrigin {
        return;
      }
      match msg
      case LoadData(payload) => OnLoadData(payload);
      case ResetView =>
      case DeselectAllRequest => DeselectAll();
      case SetPopupVisibility(v) => OnSetPopupVisibility(v);
      case UpdateUnitRequest(id, labelText, unitType) => OnUpdateUnit(id, labelText, unitType);
      case AddUnitRequest(sectionName, floorName, labelText, unitType) =>
        OnAddUnit(sectionName, floorName, labelText, unitType, now);
      case DeleteUnitRequest(id) => OnDeleteUnit(id);
      case GetDataAsJson => OnGetDataAsJson();
      case Unknown =>
    }
  }
}
