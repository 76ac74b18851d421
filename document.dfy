/**
  The floor-plan document the host sends to the renderer (`MapData` in
  src/types.ts): sections, each an ordered list of floors, each an ordered list
  of units. This module holds the document edits of the renderer's message
  handler (UPDATE_UNIT, ADD_UNIT, DELETE_UNIT) as operations on the value.
 */
module Document {
  import opened Wrappers

  datatype UnitData = UnitData(id: string, labelText: string, unitType: string)
  datatype Floor = Floor(name: string, index: int, units: seq<UnitData>)
  datatype Section = Section(name: string, floors: seq<Floor>)
  datatype MapData = MapData(sections: seq<Section>)

  // ---------------------------------------------------------------------------
  // The units of a document in document order (sections, then floors, then units)

  function FloorsUnits(fs: seq<Floor>): seq<UnitData> {
    if fs == [] then [] else fs[0].units + FloorsUnits(fs[1..])
  }

  function SectionsUnits(ss: seq<Section>): seq<UnitData> {
    if ss == [] then [] else FloorsUnits(ss[0].floors) + SectionsUnits(ss[1..])
  }

  function Units(d: MapData): seq<UnitData> {
    SectionsUnits(d.sections)
  }

  lemma {:induction false} FloorsUnitsAppend(a: seq<Floor>, b: seq<Floor>)
    ensures FloorsUnits(a + b) == FloorsUnits(a) + FloorsUnits(b)
  {
    if a != [] {
      assert (a + b)[0] == a[0] && (a + b)[1..] == a[1..] + b;
      FloorsUnitsAppend(a[1..], b);
    } else {
      assert a + b == b;
    }
  }

  lemma {:induction false} SectionsUnitsAppend(a: seq<Section>, b: seq<Section>)
    ensures SectionsUnits(a + b) == SectionsUnits(a) + SectionsUnits(b)
  {
    if a != [] {
      assert (a + b)[0] == a[0] && (a + b)[1..] == a[1..] + b;
      SectionsUnitsAppend(a[1..], b);
    } else {
      assert a + b == b;
    }
  }

  /** The units of floor `k` of section `i` sit between the units before and after them. */
  lemma SplitAt(ss: seq<Section>, i: nat, k: nat)
    requires i < |ss| && k < |ss[i].floors|
    ensures SectionsUnits(ss) ==
            SectionsUnits(ss[..i]) + FloorsUnits(ss[i].floors[..k]) + ss[i].floors[k].units +
            FloorsUnits(ss[i].floors[k + 1..]) + SectionsUnits(ss[i + 1..])
  {
    var fs := ss[i].floors;
    assert ss == ss[..i] + ([ss[i]] + ss[i + 1..]);
    SectionsUnitsAppend(ss[..i], [ss[i]] + ss[i + 1..]);
    assert ([ss[i]] + ss[i + 1..])[1..] == ss[i + 1..];
    assert fs == fs[..k] + ([fs[k]] + fs[k + 1..]);
    FloorsUnitsAppend(fs[..k], [fs[k]] + fs[k + 1..]);
    assert ([fs[k]] + fs[k + 1..])[1..] == fs[k + 1..];
  }

  /** Both documents have the same sections and floors with the same names and
      indices, in the same order; only the unit lists may differ. */
  ghost predicate SameOutline(a: MapData, b: MapData) {
    |a.sections| == |b.sections| &&
    forall i :: 0 <= i < |a.sections| ==>
      a.sections[i].name == b.sections[i].name &&
      |a.sections[i].floors| == |b.sections[i].floors| &&
      forall k :: 0 <= k < |a.sections[i].floors| ==>
        a.sections[i].floors[k].name == b.sections[i].floors[k].name &&
        a.sections[i].floors[k].index == b.sections[i].floors[k].index
  }

  predicate HasId(us: seq<UnitData>, id: string) {
    exists u :: u in us && u.id == id
  }

  lemma HasIdAppend(a: seq<UnitData>, b: seq<UnitData>, id: string)
    ensures HasId(a + b, id) <==> HasId(a, id) || HasId(b, id)
  {
    if HasId(a + b, id) {
      var u :| u in a + b && u.id == id;
      assert u in a || u in b;
    }
    if HasId(a, id) {
      var u :| u in a && u.id == id;
      assert u in a + b;
    }
    if HasId(b, id) {
      var u :| u in b && u.id == id;
      assert u in a + b;
    }
  }

  ghost predicate IsFirstWithId(us: seq<UnitData>, p: int, id: string) {
    0 <= p < |us| && us[p].id == id && forall j :: 0 <= j < p ==> us[j].id != id
  }

  // ---------------------------------------------------------------------------
  // UPDATE_UNIT: the first unit with the id takes the new label and type

  function Relabel(u: UnitData, labelText: string, unitType: string): UnitData {
    u.(labelText := labelText, unitType := unitType)
  }

  function ReplaceFirst(us: seq<UnitData>, id: string, labelText: string, unitType: string): (r: seq<UnitData>)
    ensures |r| == |us|
  {
    if us == [] then []
    else if us[0].id == id then [Relabel(us[0], labelText, unitType)] + us[1..]
    else [us[0]] + ReplaceFirst(us[1..], id, labelText, unitType)
  }

  /** `xs.find(p)`, as a position: the first element satisfying `p`, or none. */
  function FindFirst<T>(xs: seq<T>, p: T -> bool): (r: Option<nat>)
    ensures r.Some? ==> r.value < |xs| && p(xs[r.value]) &&
                        forall j :: 0 <= j < r.value ==> !p(xs[j])
    ensures r.None? ==> forall j :: 0 <= j < |xs| ==> !p(xs[j])
  {
    if xs == [] then None
    else if p(xs[0]) then Some(0)
    else match FindFirst(xs[1..], p)
      case None => None
      case Some(j) => Some(j + 1)
  }

  /** `us.findIndex(u => u.id === id)`, as an optional position. */
  function IndexOfId(us: seq<UnitData>, id: string): (r: Option<nat>)
    ensures r.Some? ==> IsFirstWithId(us, r.value, id)
    ensures r.None? ==> !HasId(us, id)
  {
    FindFirst(us, (u: UnitData) => u.id == id)
  }

  lemma {:induction false} ReplaceFirstAbsent(us: seq<UnitData>, id: string, labelText: string, unitType: string)
    requires !HasId(us, id)
    ensures ReplaceFirst(us, id, labelText, unitType) == us
  {
    if us != [] {
      assert us[0] in us;
      assert !HasId(us[1..], id) by {
        forall u | u in us[1..] ensures u.id != id { assert u in us; }
      }
      ReplaceFirstAbsent(us[1..], id, labelText, unitType);
      assert us == [us[0]] + us[1..];
    }
  }

  lemma {:induction false} ReplaceFirstAt(us: seq<UnitData>, p: nat, id: string, labelText: string, unitType: string)
    requires IsFirstWithId(us, p, id)
    ensures ReplaceFirst(us, id, labelText, unitType) == us[p := Relabel(us[p], labelText, unitType)]
  {
    if p > 0 {
      assert IsFirstWithId(us[1..], p - 1, id);
      ReplaceFirstAt(us[1..], p - 1, id, labelText, unitType);
    }
  }

  /** Only the first unit with the id changes, and only its label and type;
      without such a unit nothing changes. */
  lemma ReplaceFirstSpec(us: seq<UnitData>, id: string, labelText: string, unitType: string)
    ensures !HasId(us, id) ==> ReplaceFirst(us, id, labelText, unitType) == us
    ensures forall p :: IsFirstWithId(us, p, id) ==>
              ReplaceFirst(us, id, labelText, unitType) == us[p := Relabel(us[p], labelText, unitType)]
  {
    if !HasId(us, id) {
      ReplaceFirstAbsent(us, id, labelText, unitType);
    }
    forall p | IsFirstWithId(us, p, id)
      ensures ReplaceFirst(us, id, labelText, unitType) == us[p := Relabel(us[p], labelText, unitType)]
    {
      ReplaceFirstAt(us, p, id, labelText, unitType);
    }
  }

  lemma {:induction false} ReplaceFirstAppend(a: seq<UnitData>, b: seq<UnitData>, id: string, labelText: string, unitType: string)
    ensures ReplaceFirst(a + b, id, labelText, unitType) ==
            if HasId(a, id) then ReplaceFirst(a, id, labelText, unitType) + b
            else a + ReplaceFirst(b, id, labelText, unitType)
  {
    if a == [] {
      assert a + b == b;
      assert !HasId(a, id);
    } else {
      assert (a + b)[0] == a[0] && (a + b)[1..] == a[1..] + b;
      assert a[0] in a;
      if a[0].id == id {
        assert [Relabel(a[0], labelText, unitType)] + (a[1..] + b) ==
               ([Relabel(a[0], labelText, unitType)] + a[1..]) + b;
      } else {
        ReplaceFirstAppend(a[1..], b, id, labelText, unitType);
        assert HasId(a, id) <==> HasId(a[1..], id) by {
          assert a == [a[0]] + a[1..];
          HasIdAppend([a[0]], a[1..], id);
        }
        if HasId(a[1..], id) {
          assert [a[0]] + (ReplaceFirst(a[1..], id, labelText, unitType) + b) ==
                 ([a[0]] + ReplaceFirst(a[1..], id, labelText, unitType)) + b;
        } else {
          assert [a[0]] + (a[1..] + ReplaceFirst(b, id, labelText, unitType)) ==
                 ([a[0]] + a[1..]) + ReplaceFirst(b, id, labelText, unitType);
          assert [a[0]] + a[1..] == a;
        }
      }
    }
  }

  function UpdateFloors(fs: seq<Floor>, id: string, labelText: string, unitType: string): (r: seq<Floor>)
    ensures |r| == |fs|
    ensures forall k :: 0 <= k < |fs| ==>
              r[k].name == fs[k].name && r[k].index == fs[k].index && |r[k].units| == |fs[k].units|
  {
    if fs == [] then []
    else if HasId(fs[0].units, id) then
      [fs[0].(units := ReplaceFirst(fs[0].units, id, labelText, unitType))] + fs[1..]
    else
      [fs[0]] + UpdateFloors(fs[1..], id, labelText, unitType)
  }

  function UpdateSections(ss: seq<Section>, id: string, labelText: string, unitType: string): (r: seq<Section>)
    ensures |r| == |ss|
    ensures forall i :: 0 <= i < |ss| ==>
              r[i].name == ss[i].name && |r[i].floors| == |ss[i].floors| &&
              forall k :: 0 <= k < |ss[i].floors| ==>
                r[i].floors[k].name == ss[i].floors[k].name &&
                r[i].floors[k].index == ss[i].floors[k].index &&
                |r[i].floors[k].units| == |ss[i].floors[k].units|
  {
    if ss == [] then []
    else if HasId(FloorsUnits(ss[0].floors), id) then
      [ss[0].(floors := UpdateFloors(ss[0].floors, id, labelText, unitType))] + ss[1..]
    else
      [ss[0]] + UpdateSections(ss[1..], id, labelText, unitType)
  }

  /** The UPDATE_UNIT edit: `find` over all units in document order, then two field assignments. */
  function UpdateUnit(d: MapData, id: string, labelText: string, unitType: string): MapData {
    MapData(UpdateSections(d.sections, id, labelText, unitType))
  }

  lemma {:induction false} UpdateFloorsUnits(fs: seq<Floor>, id: string, labelText: string, unitType: string)
    ensures FloorsUnits(UpdateFloors(fs, id, labelText, unitType)) == ReplaceFirst(FloorsUnits(fs), id, labelText, unitType)
  {
    if fs != [] {
      var r := UpdateFloors(fs, id, labelText, unitType);
      assert r[1..] == if HasId(fs[0].units, id) then fs[1..] else UpdateFloors(fs[1..], id, labelText, unitType);
      ReplaceFirstAppend(fs[0].units, FloorsUnits(fs[1..]), id, labelText, unitType);
      if !HasId(fs[0].units, id) {
        UpdateFloorsUnits(fs[1..], id, labelText, unitType);
      }
    }
  }

  lemma {:induction false} UpdateSectionsUnits(ss: seq<Section>, id: string, labelText: string, unitType: string)
    ensures SectionsUnits(UpdateSections(ss, id, labelText, unitType)) == ReplaceFirst(SectionsUnits(ss), id, labelText, unitType)
  {
    if ss != [] {
      var r := UpdateSections(ss, id, labelText, unitType);
      assert r[1..] == if HasId(FloorsUnits(ss[0].floors), id) then ss[1..] else UpdateSections(ss[1..], id, labelText, unitType);
      ReplaceFirstAppend(FloorsUnits(ss[0].floors), SectionsUnits(ss[1..]), id, labelText, unitType);
      if HasId(FloorsUnits(ss[0].floors), id) {
        UpdateFloorsUnits(ss[0].floors, id, labelText, unitType);
      } else {
        UpdateSectionsUnits(ss[1..], id, labelText, unitType);
      }
    }
  }

  /** UPDATE_UNIT changes the label and type of the first unit with the id, in
      document order, and nothing else: the outline, every unit count and every
      other unit stay as they were. An unknown id leaves the document unchanged. */
  lemma UpdateUnitSpec(d: MapData, id: string, labelText: string, unitType: string)
    ensures SameOutline(d, UpdateUnit(d, id, labelText, unitType))
    ensures |Units(UpdateUnit(d, id, labelText, unitType))| == |Units(d)|
    ensures forall p :: IsFirstWithId(Units(d), p, id) ==>
              Units(UpdateUnit(d, id, labelText, unitType)) == Units(d)[p := Relabel(Units(d)[p], labelText, unitType)]
    ensures !HasId(Units(d), id) ==> UpdateUnit(d, id, labelText, unitType) == d
  {
    var r := UpdateUnit(d, id, labelText, unitType);
    assert SameOutline(d, r);
    UpdateSectionsUnits(d.sections, id, labelText, unitType);
    assert Units(r) == ReplaceFirst(Units(d), id, labelText, unitType);
    ReplaceFirstSpec(Units(d), id, labelText, unitType);
    if !HasId(Units(d), id) {
      UpdateSectionsMissing(d.sections, id, labelText, unitType);
    }
  }

  lemma {:induction false} UpdateSectionsMissing(ss: seq<Section>, id: string, labelText: string, unitType: string)
    requires !HasId(SectionsUnits(ss), id)
    ensures UpdateSections(ss, id, labelText, unitType) == ss
  {
    if ss != [] {
      HasIdAppend(FloorsUnits(ss[0].floors), SectionsUnits(ss[1..]), id);
      UpdateSectionsMissing(ss[1..], id, labelText, unitType);
      assert ss == [ss[0]] + ss[1..];
    }
  }

  // ---------------------------------------------------------------------------
  // ADD_UNIT: append to the first floor of the first section whose names match

  /** The floor ADD_UNIT appends to: only floors of the FIRST section with the
      name are searched, so a later section with the same name is never used. */
  function AddTarget(d: MapData, sectionName: string, floorName: string): (r: Option<(nat, nat)>)
    ensures r.Some? ==>
              var (i, k) := r.value;
              i < |d.sections| && k < |d.sections[i].floors| &&
              d.sections[i].name == sectionName && d.sections[i].floors[k].name == floorName &&
              (forall j :: 0 <= j < i ==> d.sections[j].name != sectionName) &&
              (forall j :: 0 <= j < k ==> d.sections[i].floors[j].name != floorName)
    ensures r.None? ==>
              forall i :: 0 <= i < |d.sections| && d.sections[i].name == sectionName &&
                          (forall j :: 0 <= j < i ==> d.sections[j].name != sectionName) ==>
                forall k :: 0 <= k < |d.sections[i].floors| ==> d.sections[i].floors[k].name != floorName
  {
    match FindFirst(d.sections, (s: Section) => s.name == sectionName)
    case None => None
    case Some(i) =>
      match FindFirst(d.sections[i].floors, (f: Floor) => f.name == floorName)
      case None => None
      case Some(k) => Some((i, k))
  }

  function WithFloorUnits(d: MapData, i: nat, k: nat, us: seq<UnitData>): MapData
    requires i < |d.sections| && k < |d.sections[i].floors|
  {
    var s := d.sections[i];
    d.(sections := d.sections[i := s.(floors := s.floors[k := s.floors[k].(units := us)])])
  }

  /** The ADD_UNIT edit: `push` onto the found floor; nothing when no floor is found. */
  function AddUnit(d: MapData, sectionName: string, floorName: string, u: UnitData): MapData {
    match AddTarget(d, sectionName, floorName)
    case None => d
    case Some((i, k)) => WithFloorUnits(d, i, k, d.sections[i].floors[k].units + [u])
  }

  /** Appending a unit to one floor changes that floor's unit list and no
      other floor, so the document gains exactly that unit. */
  lemma AppendToFloor(d: MapData, i: nat, k: nat, u: UnitData)
    requires i < |d.sections| && k < |d.sections[i].floors|
    ensures var r := WithFloorUnits(d, i, k, d.sections[i].floors[k].units + [u]);
            SameOutline(d, r) &&
            r.sections[i].floors[k].units == d.sections[i].floors[k].units + [u] &&
            (forall i', k' :: 0 <= i' < |d.sections| && 0 <= k' < |d.sections[i'].floors| && (i', k') != (i, k) ==>
               r.sections[i'].floors[k'] == d.sections[i'].floors[k']) &&
            |Units(r)| == |Units(d)| + 1 &&
            multiset(Units(r)) == multiset(Units(d)) + multiset{u}
  {
    var r := WithFloorUnits(d, i, k, d.sections[i].floors[k].units + [u]);
    SplitAt(d.sections, i, k);
    SplitAt(r.sections, i, k);
    assert r.sections[..i] == d.sections[..i];
    assert r.sections[i + 1..] == d.sections[i + 1..];
    assert r.sections[i].floors[..k] == d.sections[i].floors[..k];
    assert r.sections[i].floors[k + 1..] == d.sections[i].floors[k + 1..];
  }

  /** ADD_UNIT appends the unit to the target floor and to nothing else, so the
      document gains exactly one unit; with no matching section or floor the
      document is unchanged. */
  lemma AddUnitSpec(d: MapData, sectionName: string, floorName: string, u: UnitData)
    ensures SameOutline(d, AddUnit(d, sectionName, floorName, u))
    ensures AddTarget(d, sectionName, floorName).None? ==> AddUnit(d, sectionName, floorName, u) == d
    ensures AddTarget(d, sectionName, floorName).Some? ==>
              var (i, k) := AddTarget(d, sectionName, floorName).value;
              var r := AddUnit(d, sectionName, floorName, u);
              r.sections[i].floors[k].units == d.sections[i].floors[k].units + [u] &&
              (forall i', k' :: 0 <= i' < |d.sections| && 0 <= k' < |d.sections[i'].floors| && (i', k') != (i, k) ==>
                 r.sections[i'].floors[k'] == d.sections[i'].floors[k']) &&
              |Units(r)| == |Units(d)| + 1 &&
              multiset(Units(r)) == multiset(Units(d)) + multiset{u}
  {
    match AddTarget(d, sectionName, floorName)
    case None =>
    case Some((i, k)) =>
      AppendToFloor(d, i, k, u);
  }

  // ---------------------------------------------------------------------------
  // DELETE_UNIT: filter the id out of every floor

  /** `units.filter(u => u.id !== id)` */
  function Without(us: seq<UnitData>, id: string): (r: seq<UnitData>)
    ensures forall u :: u in r <==> u in us && u.id != id
    ensures |r| <= |us|
  {
    if us == [] then []
    else
      assert forall u :: u in us <==> u == us[0] || u in us[1..];
      (if us[0].id == id then [] else [us[0]]) + Without(us[1..], id)
  }

  lemma {:induction false} WithoutAppend(a: seq<UnitData>, b: seq<UnitData>, id: string)
    ensures Without(a + b, id) == Without(a, id) + Without(b, id)
  {
    if a != [] {
      assert (a + b)[0] == a[0] && (a + b)[1..] == a[1..] + b;
      WithoutAppend(a[1..], b, id);
    } else {
      assert a + b == b;
    }
  }

  lemma {:induction false} WithoutAbsent(us: seq<UnitData>, id: string)
    requires !HasId(us, id)
    ensures Without(us, id) == us
  {
    if us != [] {
      assert us[0] in us;
      assert !HasId(us[1..], id) by {
        forall u | u in us[1..] ensures u.id != id { assert u in us; }
      }
      WithoutAbsent(us[1..], id);
      assert us == [us[0]] + us[1..];
    }
  }

  function DeleteFromFloors(fs: seq<Floor>, id: string): (r: seq<Floor>)
    ensures |r| == |fs|
    ensures forall k :: 0 <= k < |fs| ==> r[k] == fs[k].(units := Without(fs[k].units, id))
  {
    if fs == [] then [] else [fs[0].(units := Without(fs[0].units, id))] + DeleteFromFloors(fs[1..], id)
  }

  function DeleteFromSections(ss: seq<Section>, id: string): (r: seq<Section>)
    ensures |r| == |ss|
    ensures forall i :: 0 <= i < |ss| ==> r[i] == ss[i].(floors := DeleteFromFloors(ss[i].floors, id))
  {
    if ss == [] then [] else [ss[0].(floors := DeleteFromFloors(ss[0].floors, id))] + DeleteFromSections(ss[1..], id)
  }

  /** The DELETE_UNIT edit. */
  function DeleteUnit(d: MapData, id: string): MapData {
    MapData(DeleteFromSections(d.sections, id))
  }

  lemma {:induction false} DeleteFromFloorsUnits(fs: seq<Floor>, id: string)
    ensures FloorsUnits(DeleteFromFloors(fs, id)) == Without(FloorsUnits(fs), id)
  {
    if fs != [] {
      assert DeleteFromFloors(fs, id)[1..] == DeleteFromFloors(fs[1..], id);
      DeleteFromFloorsUnits(fs[1..], id);
      WithoutAppend(fs[0].units, FloorsUnits(fs[1..]), id);
    }
  }

  lemma {:induction false} DeleteFromSectionsUnits(ss: seq<Section>, id: string)
    ensures SectionsUnits(DeleteFromSections(ss, id)) == Without(SectionsUnits(ss), id)
  {
    if ss != [] {
      assert DeleteFromSections(ss, id)[1..] == DeleteFromSections(ss[1..], id);
      DeleteFromSectionsUnits(ss[1..], id);
      DeleteFromFloorsUnits(ss[0].floors, id);
      WithoutAppend(FloorsUnits(ss[0].floors), SectionsUnits(ss[1..]), id);
    }
  }

  lemma WithoutTwice(us: seq<UnitData>, id: string)
    ensures Without(Without(us, id), id) == Without(us, id)
  {
    WithoutAbsent(Without(us, id), id);
  }

  /** DELETE_UNIT removes every unit with the id and keeps the other units in
      their order; the outline is kept; deleting twice is deleting once; an
      unknown id changes nothing. */
  lemma DeleteUnitSpec(d: MapData, id: string)
    ensures SameOutline(d, DeleteUnit(d, id))
    ensures Units(DeleteUnit(d, id)) == Without(Units(d), id)
    ensures !HasId(Units(DeleteUnit(d, id)), id)
    ensures DeleteUnit(DeleteUnit(d, id), id) == DeleteUnit(d, id)
    ensures !HasId(Units(d), id) ==> DeleteUnit(d, id) == d
  {
    var r := DeleteUnit(d, id);
    DeleteFromSectionsUnits(d.sections, id);
    var r2 := DeleteUnit(r, id);
    assert |r2.sections| == |r.sections|;
    forall i | 0 <= i < |r.sections| ensures r2.sections[i] == r.sections[i] {
      var fs := r.sections[i].floors;
      assert |r2.sections[i].floors| == |fs|;
      forall k | 0 <= k < |fs| ensures r2.sections[i].floors[k] == fs[k] {
        WithoutTwice(d.sections[i].floors[k].units, id);
      }
    }
    assert r2.sections == r.sections;
    if !HasId(Units(d), id) {
      DeleteAbsent(d.sections, id);
    }
  }

  lemma {:induction false} DeleteAbsent(ss: seq<Section>, id: string)
    requires !HasId(SectionsUnits(ss), id)
    ensures DeleteFromSections(ss, id) == ss
  {
    if ss != [] {
      HasIdAppend(FloorsUnits(ss[0].floors), SectionsUnits(ss[1..]), id);
      DeleteAbsent(ss[1..], id);
      DeleteAbsentFloors(ss[0].floors, id);
      assert DeleteFromSections(ss, id)[1..] == ss[1..];
      assert DeleteFromSections(ss, id)[0] == ss[0];
    }
  }

  lemma {:induction false} DeleteAbsentFloors(fs: seq<Floor>, id: string)
    requires !HasId(FloorsUnits(fs), id)
    ensures DeleteFromFloors(fs, id) == fs
  {
    if fs != [] {
      HasIdAppend(fs[0].units, FloorsUnits(fs[1..]), id);
      DeleteAbsentFloors(fs[1..], id);
      WithoutAbsent(fs[0].units, id);
      assert DeleteFromFloors(fs, id)[1..] == fs[1..];
      assert DeleteFromFloors(fs, id)[0] == fs[0];
    }
  }
}
