/**
  The pixel layout the renderer computes from a document: sections left to
  right, floors of a section stacked top to bottom by descending index, units of
  a floor left to right in label order. Every constant is an integer, so the
  geometry below is exact.
 */
module Layout {
  import opened StableSort
  import opened Labels
  import opened Document

  const UnitWidth: int := 70
  const UnitHeight: int := 90
  const Padding: int := 10
  const FloorLabelWidth: int := 50
  const SectionPadding: int := 50

  // The horizontal stride of units, UnitWidth + Padding, and the vertical
  // stride of floors, UnitHeight + Padding, appear as the literals 80 and 100
  // in the products below so that the solver sees linear arithmetic.

  /** A unit with its drawing box (`{...unitData, x, y, width, height}`). */
  datatype PlacedUnit = PlacedUnit(unit: UnitData, x: int, y: int, width: int, height: int)
  datatype FloorLayout = FloorLayout(x: int, y: int, name: string, units: seq<PlacedUnit>)
  datatype SectionLayout = SectionLayout(x: int, y: int, name: string, floors: seq<FloorLayout>)
  datatype PlacedLayout = PlacedLayout(sections: seq<SectionLayout>)

  // ---------------------------------------------------------------------------
  // Sort orders, as "comparator result <= 0"

  /** `(a, b) => a.label.localeCompare(b.label, undefined, { numeric: true })` */
  const UnitOrder: (UnitData, UnitData) -> bool := (a: UnitData, b: UnitData) => LabelLe(a.labelText, b.labelText)

  /** `(a, b) => b.index - a.index`: higher floors first. */
  const FloorOrder: (Floor, Floor) -> bool := (a: Floor, b: Floor) => b.index - a.index <= 0

  lemma UnitOrderIsTotalPreorder()
    ensures TotalPreorder(UnitOrder)
  {
    forall a: UnitData, b: UnitData ensures UnitOrder(a, b) || UnitOrder(b, a) {
      LabelLeTotal(a.labelText, b.labelText);
    }
    forall a: UnitData, b: UnitData, c: UnitData | UnitOrder(a, b) && UnitOrder(b, c)
      ensures UnitOrder(a, c)
    {
      LabelLeTransitive(a.labelText, b.labelText, c.labelText);
    }
  }

  lemma FloorOrderIsTotalPreorder()
    ensures TotalPreorder(FloorOrder)
  {
  }

  function SortUnits(us: seq<UnitData>): seq<UnitData> {
    Sort(us, UnitOrder)
  }

  function SortFloors(fs: seq<Floor>): seq<Floor> {
    Sort(fs, FloorOrder)
  }

  /** The floor after `floor.units.sort(...)` has run on it. */
  function SortFloorUnits(f: Floor): Floor {
    f.(units := SortUnits(f.units))
  }

  /** The floors of a section in drawing order: the sorted copy of the floor
      list, each floor with its units sorted. */
  function OrderedFloors(s: Section): seq<Floor> {
    Map(SortFloorUnits, SortFloors(s.floors))
  }

  /** The document as the layout pass leaves it: floors keep their order, but
      every floor's unit list has been sorted in place. */
  function Normalize(d: MapData): MapData {
    MapData(seq(|d.sections|, i requires 0 <= i < |d.sections| =>
      d.sections[i].(floors := Map(SortFloorUnits, d.sections[i].floors))))
  }

  // ---------------------------------------------------------------------------
  // Geometry

  /** The largest unit count over the floors (`maxUnitsOnFloor`), 0 for no floors. */
  function MaxUnits(fs: seq<Floor>): (m: nat)
    ensures forall k :: 0 <= k < |fs| ==> |fs[k].units| <= m
    ensures fs == [] ==> m == 0
    ensures fs != [] ==> exists k :: 0 <= k < |fs| && |fs[k].units| == m
  {
    if fs == [] then 0
    else
      var m := MaxUnits(fs[..|fs| - 1]);
      assert forall k :: 0 <= k < |fs| - 1 ==> fs[..|fs| - 1][k] == fs[k];
      if |fs[|fs| - 1].units| > m then |fs[|fs| - 1].units| else m
  }

  /** The document with every section's floors in drawing order. */
  function DrawingOrder(d: MapData): MapData {
    MapData(seq(|d.sections|, i requires 0 <= i < |d.sections| =>
      d.sections[i].(floors := OrderedFloors(d.sections[i]))))
  }

  /** The width of a section whose floors are in drawing order: floor labels,
      the widest floor's units, and one padding. */
  function SectionWidth(s: Section): int {
    FloorLabelWidth + MaxUnits(s.floors) * 80 + Padding
  }

  /** The left edge of the section after sections of widths `ws[..i]`: the running `currentX`. */
  function Offset(ws: seq<int>, i: nat): int
    requires i <= |ws|
  {
    if i == 0 then Padding else Offset(ws, i - 1) + ws[i - 1] + SectionPadding
  }

  function Widths(ss: seq<Section>): (ws: seq<int>)
    ensures |ws| == |ss|
  {
    seq(|ss|, i requires 0 <= i < |ss| => SectionWidth(ss[i]))
  }

  function SectionX(ss: seq<Section>, i: nat): int
    requires i <= |ss|
  {
    Offset(Widths(ss), i)
  }

  /** The top of the `k`-th floor drawn in a section: the running `currentY`. */
  function FloorY(k: nat): int {
    Padding + 40 + k * 100
  }

  function PlaceFloor(f: Floor, x: int, y: int): FloorLayout {
    FloorLayout(x, y, "Этаж " + f.name,
      seq(|f.units|, j requires 0 <= j < |f.units| =>
        PlacedUnit(f.units[j], x + FloorLabelWidth + j * 80, y, UnitWidth, UnitHeight)))
  }

  /** A section whose floors are already in drawing order, placed at `x`. */
  function PlaceSection(s: Section, x: int): SectionLayout {
    SectionLayout(x, Padding, "Подъезд " + s.name,
      seq(|s.floors|, k requires 0 <= k < |s.floors| => PlaceFloor(s.floors[k], x, FloorY(k))))
  }

  /** Sections already in drawing order, placed side by side. */
  function LayoutOf(ss: seq<Section>): PlacedLayout {
    PlacedLayout(seq(|ss|, i requires 0 <= i < |ss| => PlaceSection(ss[i], SectionX(ss, i))))
  }

  /** `generateStructuredLayout(data)`: the returned layout. */
  function GenerateLayout(d: MapData): PlacedLayout {
    LayoutOf(DrawingOrder(d).sections)
  }

  // ---------------------------------------------------------------------------
  // The flat unit list (`allUnits`) and the unit types seen (`usedUnitTypes`)

  function FloorsPlaced(fls: seq<FloorLayout>): seq<PlacedUnit> {
    if fls == [] then [] else fls[0].units + FloorsPlaced(fls[1..])
  }

  function SectionsPlaced(sls: seq<SectionLayout>): seq<PlacedUnit> {
    if sls == [] then [] else FloorsPlaced(sls[0].floors) + SectionsPlaced(sls[1..])
  }

  /** The units of a layout in drawing order. */
  function AllPlaced(l: PlacedLayout): seq<PlacedUnit> {
    SectionsPlaced(l.sections)
  }

  /** The document data of placed units, without their boxes. */
  function Strip(ps: seq<PlacedUnit>): (r: seq<UnitData>)
    ensures |r| == |ps| && forall p :: 0 <= p < |ps| ==> r[p] == ps[p].unit
  {
    seq(|ps|, p requires 0 <= p < |ps| => ps[p].unit)
  }

  lemma {:induction false} FloorsPlacedAppend(a: seq<FloorLayout>, b: seq<FloorLayout>)
    ensures FloorsPlaced(a + b) == FloorsPlaced(a) + FloorsPlaced(b)
  {
    if a != [] {
      assert (a + b)[0] == a[0] && (a + b)[1..] == a[1..] + b;
      FloorsPlacedAppend(a[1..], b);
    } else {
      assert a + b == b;
    }
  }

  lemma {:induction false} SectionsPlacedAppend(a: seq<SectionLayout>, b: seq<SectionLayout>)
    ensures SectionsPlaced(a + b) == SectionsPlaced(a) + SectionsPlaced(b)
  {
    if a != [] {
      assert (a + b)[0] == a[0] && (a + b)[1..] == a[1..] + b;
      SectionsPlacedAppend(a[1..], b);
    } else {
      assert a + b == b;
    }
  }

  function AddType(used: seq<string>, t: string): seq<string> {
    if t in used then used else used + [t]
  }

  /** `units.forEach(u => usedUnitTypes.add(u.unitType))` on an insertion-ordered set. */
  function CollectTypes(used: seq<string>, us: seq<UnitData>): seq<string>
    decreases us
  {
    if us == [] then used else CollectTypes(AddType(used, us[0].unitType), us[1..])
  }

  /** `Array.from(usedUnitTypes)` after the layout pass over `units`. */
  function UsedUnitTypes(ps: seq<PlacedUnit>): seq<string> {
    CollectTypes([], Strip(ps))
  }

  ghost predicate NoDuplicates(s: seq<string>) {
    forall p, q :: 0 <= p < q < |s| ==> s[p] != s[q]
  }

  lemma {:induction false} CollectTypesAppend(used: seq<string>, a: seq<UnitData>, b: seq<UnitData>)
    ensures CollectTypes(used, a + b) == CollectTypes(CollectTypes(used, a), b)
    decreases a
  {
    if a != [] {
      assert (a + b)[0] == a[0] && (a + b)[1..] == a[1..] + b;
      CollectTypesAppend(AddType(used, a[0].unitType), a[1..], b);
    } else {
      assert a + b == b;
    }
  }

  lemma {:induction false} CollectTypesSpec(used: seq<string>, us: seq<UnitData>)
    requires NoDuplicates(used)
    ensures NoDuplicates(CollectTypes(used, us))
    ensures forall t :: t in CollectTypes(used, us) <==> t in used || exists u :: u in us && u.unitType == t
    decreases us
  {
    if us != [] {
      CollectTypesSpec(AddType(used, us[0].unitType), us[1..]);
      assert forall u :: u in us <==> u == us[0] || u in us[1..];
    }
  }

  /** The legend lists every unit type of the layout exactly once. */
  lemma UsedUnitTypesSpec(ps: seq<PlacedUnit>)
    ensures NoDuplicates(UsedUnitTypes(ps))
    ensures forall t :: t in UsedUnitTypes(ps) <==> exists p :: 0 <= p < |ps| && ps[p].unit.unitType == t
  {
    CollectTypesSpec([], Strip(ps));
    forall t | t in UsedUnitTypes(ps) ensures exists p :: 0 <= p < |ps| && ps[p].unit.unitType == t {
      var u :| u in Strip(ps) && u.unitType == t;
      var p :| 0 <= p < |ps| && Strip(ps)[p] == u;
    }
    forall p | 0 <= p < |ps| ensures ps[p].unit.unitType in UsedUnitTypes(ps) {
      assert Strip(ps)[p] in Strip(ps);
    }
  }
}
