/**
  What the layout promises: floors in descending index order one row apart,
  units on a floor in label order one step apart, sections side by side with
  every unit inside its own section, no two units overlapping, `allUnits`
  holding every unit of the document exactly once, and a second layout pass
  over the document the first one left behind giving the same picture.
 */
module LayoutFacts {
  import opened StableSort
  import opened Document
  import opened Layout

  // ---------------------------------------------------------------------------
  // Positions in a layout

  ghost predicate ValidPos(l: PlacedLayout, i: int, k: int, j: int) {
    0 <= i < |l.sections| && 0 <= k < |l.sections[i].floors| && 0 <= j < |l.sections[i].floors[k].units|
  }

  function At(l: PlacedLayout, i: int, k: int, j: int): PlacedUnit
    requires ValidPos(l, i, k, j)
  {
    l.sections[i].floors[k].units[j]
  }

  /** The two drawing boxes share some interior point. */
  predicate Overlap(a: PlacedUnit, b: PlacedUnit) {
    a.x < b.x + b.width && b.x < a.x + a.width && a.y < b.y + b.height && b.y < a.y + a.height
  }

  // ---------------------------------------------------------------------------
  // Geometry of sections placed in drawing order

  /** Unit `j` of the `k`-th floor of section `i` keeps its document data, sits
      at x = sectionX + 50 + 80j on the row y = 50 + 100k, and is 70 wide and
      90 high. */
  lemma UnitPlacement(ss: seq<Section>, i: nat, k: nat, j: nat)
    requires i < |ss| && k < |ss[i].floors| && j < |ss[i].floors[k].units|
    ensures ValidPos(LayoutOf(ss), i, k, j)
    ensures var u := At(LayoutOf(ss), i, k, j);
            u.unit == ss[i].floors[k].units[j] &&
            u.x == SectionX(ss, i) + 50 + 80 * j && u.y == 50 + 100 * k &&
            u.width == 70 && u.height == 90
  {
  }

  /** Sections start at x = 10 and each next one at the previous start plus
      the section width (sized to its widest floor) plus 50. */
  lemma SectionStarts(ss: seq<Section>)
    ensures SectionX(ss, 0) == 10
    ensures forall i :: 0 <= i < |ss| ==>
              LayoutOf(ss).sections[i].x == SectionX(ss, i) &&
              LayoutOf(ss).sections[i].floors == PlaceSection(ss[i], SectionX(ss, i)).floors &&
              SectionX(ss, i + 1) == SectionX(ss, i) + (50 + 80 * MaxUnits(ss[i].floors) + 10) + 50
  {
  }

  lemma {:induction false} OffsetMonotone(ws: seq<int>, i: nat, i2: nat)
    requires i <= i2 <= |ws|
    requires forall k :: 0 <= k < |ws| ==> ws[k] >= 0
    ensures Offset(ws, i) <= Offset(ws, i2)
    decreases i2 - i
  {
    if i < i2 {
      OffsetMonotone(ws, i, i2 - 1);
    }
  }

  /** A later section never starts left of an earlier one. */
  lemma SectionXMonotone(ss: seq<Section>, i: nat, i2: nat)
    requires i <= i2 <= |ss|
    ensures SectionX(ss, i) <= SectionX(ss, i2)
  {
    OffsetMonotone(Widths(ss), i, i2);
  }

  /** A slot `j` of section `i` that some floor fills ends, with the section
      gap, strictly left of where the next section starts. */
  lemma SlotInsideSection(ss: seq<Section>, i: nat, j: nat)
    requires i < |ss| && j < MaxUnits(ss[i].floors)
    ensures SectionX(ss, i) + FloorLabelWidth + 80 * j + UnitWidth + SectionPadding < SectionX(ss, i + 1)
  {
    assert SectionX(ss, i + 1) == SectionX(ss, i) + SectionWidth(ss[i]) + SectionPadding;
  }

  /** Every unit of section `i` lies inside the section: right of its floor
      labels and strictly left of where the next section starts. */
  lemma UnitInsideSection(ss: seq<Section>, i: nat, k: nat, j: nat)
    requires ValidPos(LayoutOf(ss), i, k, j)
    ensures var u := At(LayoutOf(ss), i, k, j);
            SectionX(ss, i) + FloorLabelWidth <= u.x &&
            u.x + u.width + SectionPadding < SectionX(ss, i + 1)
  {
    UnitPlacement(ss, i, k, j);
    assert j < |ss[i].floors[k].units| <= MaxUnits(ss[i].floors);
    SlotInsideSection(ss, i, j);
  }

  /** Units of two different sections are apart: the left one ends before the right one starts. */
  lemma SectionsApart(ss: seq<Section>, i: nat, k: nat, j: nat, i2: nat, k2: nat, j2: nat)
    requires ValidPos(LayoutOf(ss), i, k, j) && ValidPos(LayoutOf(ss), i2, k2, j2)
    requires i < i2
    ensures At(LayoutOf(ss), i, k, j).x + At(LayoutOf(ss), i, k, j).width < At(LayoutOf(ss), i2, k2, j2).x
  {
    UnitPlacement(ss, i, k, j);
    UnitPlacement(ss, i2, k2, j2);
    assert j < |ss[i].floors[k].units| <= MaxUnits(ss[i].floors);
    SlotInsideSection(ss, i, j);
    SectionXMonotone(ss, i + 1, i2);
  }

  lemma NoOverlapPair(ss: seq<Section>, i: nat, k: nat, j: nat, i2: nat, k2: nat, j2: nat)
    requires ValidPos(LayoutOf(ss), i, k, j) && ValidPos(LayoutOf(ss), i2, k2, j2)
    requires (i, k, j) != (i2, k2, j2)
    ensures !Overlap(At(LayoutOf(ss), i, k, j), At(LayoutOf(ss), i2, k2, j2))
  {
    if i < i2 {
      SectionsApart(ss, i, k, j, i2, k2, j2);
    } else if i2 < i {
      SectionsApart(ss, i2, k2, j2, i, k, j);
    } else {
      SameSectionApart(ss, i, k, j, k2, j2);
    }
  }

  /** Units of one section are on different rows or a whole step apart on one row. */
  lemma SameSectionApart(ss: seq<Section>, i: nat, k: nat, j: nat, k2: nat, j2: nat)
    requires ValidPos(LayoutOf(ss), i, k, j) && ValidPos(LayoutOf(ss), i, k2, j2)
    requires (k, j) != (k2, j2)
    ensures !Overlap(At(LayoutOf(ss), i, k, j), At(LayoutOf(ss), i, k2, j2))
  {
    UnitPlacement(ss, i, k, j);
    UnitPlacement(ss, i, k2, j2);
  }

  /** No two units of a layout overlap. */
  lemma NoOverlap(d: MapData)
    ensures var l := GenerateLayout(d);
            forall i, k, j, i2, k2, j2 ::
              ValidPos(l, i, k, j) && ValidPos(l, i2, k2, j2) && (i, k, j) != (i2, k2, j2) ==>
              !Overlap(At(l, i, k, j), At(l, i2, k2, j2))
  {
    var ss := DrawingOrder(d).sections;
    forall i, k, j, i2, k2, j2 |
      ValidPos(LayoutOf(ss), i, k, j) && ValidPos(LayoutOf(ss), i2, k2, j2) && (i, k, j) != (i2, k2, j2)
      ensures !Overlap(At(LayoutOf(ss), i, k, j), At(LayoutOf(ss), i2, k2, j2))
    {
      NoOverlapPair(ss, i, k, j, i2, k2, j2);
    }
  }

  // ---------------------------------------------------------------------------
  // allUnits as the units of the sections in drawing order

  lemma {:induction false} FloorsPlacedStrip(fs: seq<Floor>, x: int, k0: nat, fls: seq<FloorLayout>)
    requires |fls| == |fs| && forall k :: 0 <= k < |fs| ==> fls[k] == PlaceFloor(fs[k], x, FloorY(k0 + k))
    ensures Strip(FloorsPlaced(fls)) == FloorsUnits(fs)
  {
    if fs != [] {
      FloorsPlacedStrip(fs[1..], x, k0 + 1, fls[1..]);
      var a := fls[0].units;
      var b := FloorsPlaced(fls[1..]);
      assert Strip(a + b) == Strip(a) + Strip(b);
      assert Strip(a) == fs[0].units;
    }
  }

  lemma {:induction false} SectionsPlacedStrip(ss: seq<Section>, sls: seq<SectionLayout>)
    requires |sls| == |ss|
    requires forall i :: 0 <= i < |ss| ==> sls[i].floors == PlaceSection(ss[i], sls[i].x).floors
    ensures Strip(SectionsPlaced(sls)) == SectionsUnits(ss)
  {
    if ss != [] {
      SectionsPlacedStrip(ss[1..], sls[1..]);
      assert sls[0].floors == PlaceSection(ss[0], sls[0].x).floors;
      FloorsPlacedStrip(ss[0].floors, sls[0].x, 0, sls[0].floors);
      var a := FloorsPlaced(sls[0].floors);
      var b := SectionsPlaced(sls[1..]);
      assert SectionsPlaced(sls) == a + b;
      assert SectionsUnits(ss) == FloorsUnits(ss[0].floors) + SectionsUnits(ss[1..]);
      assert Strip(a + b) == Strip(a) + Strip(b);
    }
  }

  lemma {:induction false} FloorsPlacedWidth(fls: seq<FloorLayout>)
    requires forall k :: 0 <= k < |fls| ==>
               forall j :: 0 <= j < |fls[k].units| ==> fls[k].units[j].width == UnitWidth
    ensures forall p :: 0 <= p < |FloorsPlaced(fls)| ==> FloorsPlaced(fls)[p].width == UnitWidth
  {
    if fls != [] {
      FloorsPlacedWidth(fls[1..]);
    }
  }

  /** The placed units of sections in drawing order are their units, in order. */
  lemma LayoutOfUnits(ss: seq<Section>)
    ensures Strip(AllPlaced(LayoutOf(ss))) == SectionsUnits(ss)
  {
    SectionStarts(ss);
    SectionsPlacedStrip(ss, LayoutOf(ss).sections);
  }

  /** Within every row (units with equal y) the units appear left to right. */
  ghost predicate RowSorted(ps: seq<PlacedUnit>) {
    forall p, q :: 0 <= p < q < |ps| && ps[p].y == ps[q].y ==> ps[p].x < ps[q].x
  }

  lemma RowSortedAppend(a: seq<PlacedUnit>, b: seq<PlacedUnit>)
    requires RowSorted(a) && RowSorted(b)
    requires forall p, q :: 0 <= p < |a| && 0 <= q < |b| && a[p].y == b[q].y ==> a[p].x < b[q].x
    ensures RowSorted(a + b)
  {
    forall p, q | 0 <= p < q < |a + b| && (a + b)[p].y == (a + b)[q].y
      ensures (a + b)[p].x < (a + b)[q].x
    {
      if q < |a| {
      } else if p >= |a| {
        assert (a + b)[p] == b[p - |a|] && (a + b)[q] == b[q - |a|];
      } else {
        assert (a + b)[q] == b[q - |a|];
      }
    }
  }

  ghost predicate XWithin(ps: seq<PlacedUnit>, lo: int, hi: int) {
    forall p :: 0 <= p < |ps| ==> lo <= ps[p].x && ps[p].x + ps[p].width <= hi
  }

  ghost predicate YAtLeast(ps: seq<PlacedUnit>, lo: int) {
    forall p :: 0 <= p < |ps| ==> lo <= ps[p].y
  }

  /** The floors of one section, stacked with strictly increasing y. */
  ghost predicate StackedFloors(fls: seq<FloorLayout>, lo: int, hi: int) {
    (forall k, k2 :: 0 <= k < k2 < |fls| ==> fls[k].y < fls[k2].y) &&
    forall k :: 0 <= k < |fls| ==>
      RowSorted(fls[k].units) && XWithin(fls[k].units, lo, hi) &&
      forall j :: 0 <= j < |fls[k].units| ==> fls[k].units[j].y == fls[k].y
  }

  lemma {:induction false} StackedFloorsPlaced(fls: seq<FloorLayout>, lo: int, hi: int)
    requires StackedFloors(fls, lo, hi)
    ensures RowSorted(FloorsPlaced(fls)) && XWithin(FloorsPlaced(fls), lo, hi)
    ensures fls != [] ==> YAtLeast(FloorsPlaced(fls), fls[0].y)
  {
    if fls != [] {
      var a := fls[0].units;
      var b := FloorsPlaced(fls[1..]);
      assert StackedFloors(fls[1..], lo, hi);
      StackedFloorsPlaced(fls[1..], lo, hi);
      if fls[1..] != [] {
        assert fls[1..][0].y > fls[0].y;
      }
      RowSortedAppend(a, b);
      assert forall q :: 0 <= q < |b| ==> b[q].y > fls[0].y;
      assert forall p :: 0 <= p < |a + b| ==> (a + b)[p] in a || (a + b)[p] in b;
    }
  }

  lemma PlacedSectionStacked(s: Section, x: int)
    ensures var sl := PlaceSection(s, x);
            StackedFloors(sl.floors, x + FloorLabelWidth, x + SectionWidth(s) - Padding - Padding)
  {
    var sl := PlaceSection(s, x);
    forall k | 0 <= k < |s.floors|
      ensures XWithin(sl.floors[k].units, x + FloorLabelWidth, x + SectionWidth(s) - Padding - Padding)
    {
      assert |s.floors[k].units| <= MaxUnits(s.floors);
    }
  }

  lemma {:induction false} SectionsRowSorted(ss: seq<Section>, i: nat)
    requires i <= |ss|
    ensures var rest := SectionsPlaced(LayoutOf(ss).sections[i..]);
            RowSorted(rest) &&
            forall p :: 0 <= p < |rest| ==> SectionX(ss, i) + FloorLabelWidth <= rest[p].x
    decreases |ss| - i
  {
    var l := LayoutOf(ss);
    if i < |ss| {
      var s := ss[i];
      var x := SectionX(ss, i);
      SectionsRowSorted(ss, i + 1);
      assert l.sections[i..][1..] == l.sections[i + 1..];
      PlacedSectionStacked(s, x);
      StackedFloorsPlaced(l.sections[i].floors, x + FloorLabelWidth, x + SectionWidth(s) - Padding - Padding);
      var a := FloorsPlaced(l.sections[i].floors);
      var b := SectionsPlaced(l.sections[i + 1..]);
      assert SectionX(ss, i + 1) == x + SectionWidth(s) + SectionPadding;
      assert forall p, q :: 0 <= p < |a| && 0 <= q < |b| ==> a[p].x < b[q].x by {
        assert XWithin(a, x + FloorLabelWidth, x + SectionWidth(s) - Padding - Padding);
        assert forall p :: 0 <= p < |a| ==> a[p].width >= 0 by {
          assert forall k :: 0 <= k < |l.sections[i].floors| ==>
                   forall j :: 0 <= j < |l.sections[i].floors[k].units| ==> l.sections[i].floors[k].units[j].width == UnitWidth;
          FloorsPlacedWidth(l.sections[i].floors);
        }
      }
      RowSortedAppend(a, b);
      assert forall p :: 0 <= p < |a + b| ==> (a + b)[p] in a || (a + b)[p] in b;
    }
  }

  /** In `allUnits`, the units of every row come left to right. */
  lemma AllUnitsRowSorted(d: MapData)
    ensures RowSorted(AllPlaced(GenerateLayout(d)))
  {
    var ss := DrawingOrder(d).sections;
    SectionsRowSorted(ss, 0);
    assert LayoutOf(ss).sections[0..] == LayoutOf(ss).sections;
  }

  // ---------------------------------------------------------------------------
  // The drawing order

  lemma NormalizeKeepsFloorOrder()
    ensures forall a, b :: FloorOrder(SortFloorUnits(a), SortFloorUnits(b)) == FloorOrder(a, b)
  {
  }

  /** Each section is drawn with its own name and its own floors, in
      descending `index` order, every floor with its units sorted by label and
      otherwise unchanged. */
  lemma FloorRows(d: MapData, i: nat)
    requires i < |d.sections|
    ensures var fs := DrawingOrder(d).sections[i].floors;
            DrawingOrder(d).sections[i].name == d.sections[i].name &&
            |fs| == |d.sections[i].floors| &&
            (forall k, k2 :: 0 <= k < k2 < |fs| ==> fs[k].index >= fs[k2].index) &&
            (forall k :: 0 <= k < |fs| ==> Sorted(fs[k].units, UnitOrder)) &&
            multiset(fs) == multiset(Map(SortFloorUnits, d.sections[i].floors))
  {
    var s := d.sections[i];
    FloorOrderIsTotalPreorder();
    UnitOrderIsTotalPreorder();
    SortSorted(s.floors, FloorOrder);
    NormalizeKeepsFloorOrder();
    SortMap(SortFloorUnits, s.floors, FloorOrder);
    SortPermutes(Map(SortFloorUnits, s.floors), FloorOrder);
    var fs := OrderedFloors(s);
    forall k | 0 <= k < |fs| ensures Sorted(fs[k].units, UnitOrder) {
      SortSorted(SortFloors(s.floors)[k].units, UnitOrder);
    }
  }

  lemma {:induction false} FloorsUnitsInsert(x: Floor, s: seq<Floor>)
    ensures multiset(FloorsUnits(Insert(x, s, FloorOrder))) == multiset(x.units) + multiset(FloorsUnits(s))
  {
    if s != [] && !FloorOrder(x, s[0]) {
      FloorsUnitsInsert(x, s[1..]);
      assert Insert(x, s, FloorOrder)[1..] == Insert(x, s[1..], FloorOrder);
    }
  }

  lemma {:induction false} FloorsUnitsSort(fs: seq<Floor>)
    ensures multiset(FloorsUnits(SortFloors(fs))) == multiset(FloorsUnits(fs))
  {
    if fs != [] {
      FloorsUnitsSort(fs[1..]);
      FloorsUnitsInsert(fs[0], SortFloors(fs[1..]));
    }
  }

  lemma {:induction false} FloorsUnitsNormalize(fs: seq<Floor>)
    ensures multiset(FloorsUnits(Map(SortFloorUnits, fs))) == multiset(FloorsUnits(fs))
  {
    if fs != [] {
      FloorsUnitsNormalize(fs[1..]);
      SortPermutes(fs[0].units, UnitOrder);
      assert Map(SortFloorUnits, fs)[1..] == Map(SortFloorUnits, fs[1..]);
    }
  }

  lemma {:induction false} OrderedSectionsUnits(ss: seq<Section>)
    ensures multiset(SectionsUnits(DrawingOrder(MapData(ss)).sections)) == multiset(SectionsUnits(ss))
  {
    if ss != [] {
      var os := DrawingOrder(MapData(ss)).sections;
      var rest := DrawingOrder(MapData(ss[1..])).sections;
      OrderedSectionsUnits(ss[1..]);
      assert os[1..] == rest;
      assert SectionsUnits(os) == FloorsUnits(OrderedFloors(ss[0])) + SectionsUnits(rest);
      FloorsUnitsNormalize(SortFloors(ss[0].floors));
      FloorsUnitsSort(ss[0].floors);
      assert multiset(FloorsUnits(OrderedFloors(ss[0]))) == multiset(FloorsUnits(ss[0].floors));
    }
  }

  /** `allUnits` lists the units section by section, each section's floors in
      descending index order and each floor's units in label order; it holds
      exactly the units of the document, each as often as the document does. */
  lemma AllUnitsSpec(d: MapData)
    ensures Strip(AllPlaced(GenerateLayout(d))) == Units(DrawingOrder(d))
    ensures multiset(Strip(AllPlaced(GenerateLayout(d)))) == multiset(Units(d))
    ensures |AllPlaced(GenerateLayout(d))| == |Units(d)|
  {
    LayoutOfUnits(DrawingOrder(d).sections);
    OrderedSectionsUnits(d.sections);
    assert |multiset(Strip(AllPlaced(GenerateLayout(d))))| == |multiset(Units(d))|;
  }

  // ---------------------------------------------------------------------------
  // The document left behind by the layout pass

  lemma SortUnitsTwice(us: seq<UnitData>)
    ensures SortUnits(SortUnits(us)) == SortUnits(us)
  {
    UnitOrderIsTotalPreorder();
    SortSorted(us, UnitOrder);
    SortOfSorted(SortUnits(us), UnitOrder);
  }

  lemma {:induction false} NormalizeFloorsTwice(fs: seq<Floor>)
    ensures Map(SortFloorUnits, Map(SortFloorUnits, fs)) == Map(SortFloorUnits, fs)
  {
    forall k | 0 <= k < |fs|
      ensures SortFloorUnits(SortFloorUnits(fs[k])) == SortFloorUnits(fs[k])
    {
      SortUnitsTwice(fs[k].units);
    }
  }

  lemma OrderedFloorsNormalize(s: Section)
    ensures OrderedFloors(s.(floors := Map(SortFloorUnits, s.floors))) == OrderedFloors(s)
  {
    NormalizeKeepsFloorOrder();
    SortMap(SortFloorUnits, s.floors, FloorOrder);
    NormalizeFloorsTwice(SortFloors(s.floors));
  }

  /** A second layout pass leaves the document as the first one left it. */
  lemma NormalizeTwice(d: MapData)
    ensures Normalize(Normalize(d)) == Normalize(d)
  {
    forall i | 0 <= i < |d.sections|
      ensures Normalize(Normalize(d)).sections[i] == Normalize(d).sections[i]
    {
      NormalizeFloorsTwice(d.sections[i].floors);
    }
  }

  /** After the layout pass every floor of the document holds its units sorted
      by label, a rearrangement of what it held before; sections and floors
      keep their order, names and indices; and laying out that document again
      gives the same layout. */
  lemma NormalizeSpec(d: MapData)
    ensures SameOutline(d, Normalize(d))
    ensures forall i, k :: 0 <= i < |d.sections| && 0 <= k < |d.sections[i].floors| ==>
              Sorted(Normalize(d).sections[i].floors[k].units, UnitOrder) &&
              multiset(Normalize(d).sections[i].floors[k].units) == multiset(d.sections[i].floors[k].units)
    ensures DrawingOrder(Normalize(d)) == DrawingOrder(d)
    ensures GenerateLayout(Normalize(d)) == GenerateLayout(d)
  {
    UnitOrderIsTotalPreorder();
    forall i, k | 0 <= i < |d.sections| && 0 <= k < |d.sections[i].floors|
      ensures Sorted(Normalize(d).sections[i].floors[k].units, UnitOrder)
      ensures multiset(Normalize(d).sections[i].floors[k].units) == multiset(d.sections[i].floors[k].units)
    {
      SortSorted(d.sections[i].floors[k].units, UnitOrder);
      SortPermutes(d.sections[i].floors[k].units, UnitOrder);
    }
    forall i | 0 <= i < |d.sections|
      ensures DrawingOrder(Normalize(d)).sections[i] == DrawingOrder(d).sections[i]
    {
      OrderedFloorsNormalize(d.sections[i]);
    }
  }
}
