/**
  Arrow-key navigation between units. The keydown handler groups `allUnits`
  into rows by `y`, keeps the sorted list of row positions, and picks the
  neighbour to the left or right on the current row, or the unit closest in
  `x` on the row above or below. This module computes that choice as a value,
  following the handler's steps, and proves what it amounts to when
  `allUnits` is laid out as the layout pass lays it out.
 */
module Navigation {
  import opened Wrappers
  import opened StableSort
  import opened Layout
  import opened LayoutFacts

  datatype Key = ArrowLeft | ArrowRight | ArrowUp | ArrowDown | OtherKey

  // ---------------------------------------------------------------------------
  // Searches as the handler does them

  /** `s.findIndex(p)`: the first position satisfying `p`, or -1. */
  function FirstIndex<T>(s: seq<T>, p: T -> bool): (r: int)
    ensures -1 <= r < |s|
    ensures r >= 0 ==> p(s[r]) && forall q :: 0 <= q < r ==> !p(s[q])
    ensures r == -1 ==> forall q :: 0 <= q < |s| ==> !p(s[q])
  {
    if s == [] then -1
    else if p(s[0]) then 0
    else
      var r := FirstIndex(s[1..], p);
      assert forall q :: 0 < q < |s| ==> s[1..][q - 1] == s[q];
      if r == -1 then -1 else r + 1
  }

  /** The predicate `u => u.id === id`. */
  function IdIs(id: string): PlacedUnit -> bool {
    (u: PlacedUnit) => u.unit.id == id
  }

  function Dist(u: PlacedUnit, cx: int): nat {
    if u.x >= cx then u.x - cx else cx - u.x
  }

  /** `row.reduce((prev, curr) => |curr.x - cx| < |prev.x - cx| ? curr : prev)`
      as a position: the unit closest to `cx`, the leftmost in the list on a tie. */
  function NearestIndex(row: seq<PlacedUnit>, cx: int): (r: nat)
    requires row != []
    ensures r < |row|
    ensures forall j :: 0 <= j < |row| ==> Dist(row[r], cx) <= Dist(row[j], cx)
    ensures forall j :: 0 <= j < r ==> Dist(row[r], cx) < Dist(row[j], cx)
  {
    if |row| == 1 then 0
    else
      var init := row[..|row| - 1];
      var p := NearestIndex(init, cx);
      assert forall j :: 0 <= j < |init| ==> init[j] == row[j];
      if Dist(row[|row| - 1], cx) < Dist(row[p], cx) then |row| - 1 else p
  }

  // ---------------------------------------------------------------------------
  // Rows

  /** `(a, b) => a.x - b.x` as an order. */
  const XOrder: (PlacedUnit, PlacedUnit) -> bool := (a: PlacedUnit, b: PlacedUnit) => a.x - b.x <= 0

  /** `(a, b) => a - b` as an order. */
  const NumberOrder: (int, int) -> bool := (a: int, b: int) => a - b <= 0

  /** `unitsByY[y]` after the reduce over `units`: each step sorts the row
      built so far by `x` and then appends the next unit of the row unsorted. */
  function Row(units: seq<PlacedUnit>, y: int): (r: seq<PlacedUnit>)
    ensures |r| <= |units|
  {
    if units == [] then []
    else
      var acc := Row(units[..|units| - 1], y);
      var last := units[|units| - 1];
      if last.y == y then Sort(acc, XOrder) + [last] else acc
  }

  /** The units with the given `y`, in the order of `units`. */
  function OnRow(units: seq<PlacedUnit>, y: int): (r: seq<PlacedUnit>)
    ensures forall u :: u in r <==> u in units && u.y == y
  {
    if units == [] then []
    else
      var init := units[..|units| - 1];
      var last := units[|units| - 1];
      assert units == init + [last];
      if last.y == y then OnRow(init, y) + [last] else OnRow(init, y)
  }

  /** The distinct `y` values of `units`, in order of first appearance (the keys of `unitsByY`). */
  function Ys(units: seq<PlacedUnit>): (r: seq<int>)
    ensures forall y :: y in r <==> exists p :: 0 <= p < |units| && units[p].y == y
  {
    if units == [] then []
    else
      var init := units[..|units| - 1];
      var last := units[|units| - 1];
      var acc := Ys(init);
      assert forall p :: 0 <= p < |init| ==> init[p] == units[p];
      if last.y in acc then acc else acc + [last.y]
  }

  /** `floorsY`: the row positions, ascending. */
  function FloorsY(units: seq<PlacedUnit>): seq<int> {
    Sort(Ys(units), NumberOrder)
  }

  // ---------------------------------------------------------------------------
  // The choice of the next unit

  /** The unit the handler moves to from `cur` on `key`, if any. */
  function Target(units: seq<PlacedUnit>, cur: PlacedUnit, key: Key): Option<PlacedUnit> {
    var row := Row(units, cur.y);
    var idx := FirstIndex(row, IdIs(cur.unit.id));
    match key
    case ArrowLeft => if idx > 0 then Some(row[idx - 1]) else None
    case ArrowRight => if idx < |row| - 1 then Some(row[idx + 1]) else None
    case ArrowUp => Vertical(units, cur, -1)
    case ArrowDown => Vertical(units, cur, 1)
    case OtherKey => None
  }

  /** `floorsY.indexOf(y)`. */
  function RowPosition(units: seq<PlacedUnit>, y: int): int {
    FirstIndex(FloorsY(units), (v: int) => v == y)
  }

  /** The closest unit on the row `step` rows away from `cur`'s row, if that row exists. */
  function Vertical(units: seq<PlacedUnit>, cur: PlacedUnit, step: int): Option<PlacedUnit> {
    var ys := FloorsY(units);
    var n := RowPosition(units, cur.y) + step;
    if 0 <= n < |ys| then NearestOnRow(units, ys[n], cur.x) else None
  }

  /** The unit of row `y` closest to `cx`, as the reduce picks it. */
  function NearestOnRow(units: seq<PlacedUnit>, y: int, cx: int): Option<PlacedUnit> {
    var row := Row(units, y);
    if row == [] then None else Some(row[NearestIndex(row, cx)])
  }

  // ---------------------------------------------------------------------------
  // What the choice amounts to

  /** `units[c]` is the first unit of the list with its id: the unit the
      handler's `allUnits.find` returns for the selected group. */
  ghost predicate FirstWithItsId(units: seq<PlacedUnit>, c: int) {
    0 <= c < |units| && forall q :: 0 <= q < c ==> units[q].unit.id != units[c].unit.id
  }

  ghost predicate IncreasingX(row: seq<PlacedUnit>) {
    forall i, j :: 0 <= i < j < |row| ==> row[i].x < row[j].x
  }

  ghost predicate Increasing(s: seq<int>) {
    forall i, j :: 0 <= i < j < |s| ==> s[i] < s[j]
  }

  lemma NumberOrderIsTotalPreorder()
    ensures TotalPreorder(NumberOrder)
  {
  }

  /** In a layout-ordered unit list, the units of a row come left to right. */
  lemma {:induction false} OnRowIncreasing(units: seq<PlacedUnit>, y: int)
    requires RowSorted(units)
    ensures IncreasingX(OnRow(units, y))
  {
    if units != [] {
      var init := units[..|units| - 1];
      var last := units[|units| - 1];
      assert RowSorted(init);
      OnRowIncreasing(init, y);
      if last.y == y {
        var a := OnRow(init, y);
        forall i | 0 <= i < |a| ensures a[i].x < last.x {
          assert a[i] in init;
          var p :| 0 <= p < |init| && init[p] == a[i];
          assert units[p] == a[i];
        }
      }
    }
  }

  /** On a layout-ordered unit list, the reduce of the handler builds each row
      in list order: the sort before each push leaves the row as it is. */
  lemma {:induction false} RowIsOnRow(units: seq<PlacedUnit>, y: int)
    requires RowSorted(units)
    ensures Row(units, y) == OnRow(units, y)
  {
    if units != [] {
      var init := units[..|units| - 1];
      assert RowSorted(init);
      RowIsOnRow(init, y);
      OnRowIncreasing(init, y);
      SortOfSorted(OnRow(init, y), XOrder);
    }
  }

  /** The row positions are ascending, without repeats, and are exactly the `y`s of the units. */
  lemma FloorsYSpec(units: seq<PlacedUnit>)
    ensures Increasing(FloorsY(units))
    ensures forall y :: y in FloorsY(units) <==> exists p :: 0 <= p < |units| && units[p].y == y
  {
    var ys := Ys(units);
    var fs := FloorsY(units);
    NumberOrderIsTotalPreorder();
    SortSorted(ys, NumberOrder);
    YsDistinct(units);
    SortPermutes(ys, NumberOrder);
    forall y ensures y in fs <==> y in ys {
      assert y in fs <==> y in multiset(fs);
      assert y in ys <==> y in multiset(ys);
    }
    forall i, j | 0 <= i < j < |fs| ensures fs[i] != fs[j] {
      DistinctCount(ys, fs[i]);
      if fs[i] == fs[j] {
        RepeatCount(fs, i, j);
      }
    }
  }

  lemma RepeatCount(s: seq<int>, i: nat, j: nat)
    requires i < j < |s| && s[i] == s[j]
    ensures multiset(s)[s[i]] >= 2
  {
    var v := s[i];
    assert s == s[..j] + [s[j]] + s[j + 1..];
    assert s[..j][i] == v;
    assert multiset(s) == multiset(s[..j]) + multiset{v} + multiset(s[j + 1..]);
  }

  lemma {:induction false} YsDistinct(units: seq<PlacedUnit>)
    ensures forall i, j :: 0 <= i < j < |Ys(units)| ==> Ys(units)[i] != Ys(units)[j]
  {
    if units != [] {
      YsDistinct(units[..|units| - 1]);
    }
  }

  lemma {:induction false} DistinctCount(s: seq<int>, v: int)
    requires forall i, j :: 0 <= i < j < |s| ==> s[i] != s[j]
    ensures multiset(s)[v] <= 1
  {
    if s != [] {
      assert s == [s[0]] + s[1..];
      DistinctCount(s[1..], v);
      if s[0] == v {
        assert v !in s[1..];
      }
    }
  }

  /** In a row listed left to right that holds exactly the units at the
      height of `units[c]`, the first entry with the id of `units[c]` is
      `units[c]` itself when no earlier unit of the list has that id: an
      entry further right would come later in the list, and one further left
      would be an earlier match. */
  lemma FirstMatchInRow(units: seq<PlacedUnit>, c: int, row: seq<PlacedUnit>, idx: int)
    requires RowSorted(units) && FirstWithItsId(units, c)
    requires IncreasingX(row) && forall u :: u in row <==> u in units && u.y == units[c].y
    requires 0 <= idx < |row| && row[idx].unit.id == units[c].unit.id
    requires forall q :: 0 <= q < idx ==> row[q].unit.id != units[c].unit.id
    ensures row[idx] == units[c]
  {
    assert units[c] in row;
    var k :| 0 <= k < |row| && row[k] == units[c];
    assert row[idx] in units;
    var p :| 0 <= p < |units| && units[p] == row[idx];
    if p < c {
      assert false;
    } else if p > c {
      assert false;
    }
  }

  /** The current unit, the first of the list with its id, is found at its
      own place in its row, and that row lists every unit of the row, left
      to right. */
  lemma CurrentInRow(units: seq<PlacedUnit>, c: int)
    requires RowSorted(units) && FirstWithItsId(units, c)
    ensures var cur := units[c];
            var row := Row(units, cur.y);
            var idx := FirstIndex(row, IdIs(cur.unit.id));
            IncreasingX(row) && 0 <= idx < |row| && row[idx] == cur &&
            forall u :: u in row <==> u in units && u.y == cur.y
  {
    var cur := units[c];
    RowIsOnRow(units, cur.y);
    OnRowIncreasing(units, cur.y);
    var row := Row(units, cur.y);
    var idx := FirstIndex(row, IdIs(cur.unit.id));
    assert cur in row;
    var k :| 0 <= k < |row| && row[k] == cur;
    assert IdIs(cur.unit.id)(row[k]);
    assert IdIs(cur.unit.id)(row[idx]);
    forall q | 0 <= q < idx ensures row[q].unit.id != cur.unit.id {
      assert !IdIs(cur.unit.id)(row[q]);
    }
    FirstMatchInRow(units, c, row, idx);
  }

  /** In a row listed left to right that holds exactly the units at `cur`'s
      height, the entry before `cur`'s is the nearest unit to its left, and
      there is none exactly when `cur` is leftmost. */
  lemma LeftNeighbour(units: seq<PlacedUnit>, row: seq<PlacedUnit>, idx: int, cur: PlacedUnit)
    requires IncreasingX(row) && 0 <= idx < |row| && row[idx] == cur
    requires forall u :: u in row <==> u in units && u.y == cur.y
    ensures idx == 0 <==> forall w :: w in units && w.y == cur.y ==> cur.x <= w.x
    ensures idx > 0 ==> row[idx - 1] in units && row[idx - 1].y == cur.y && row[idx - 1].x < cur.x &&
                        forall w :: w in units && w.y == cur.y && w.x < cur.x ==> w.x <= row[idx - 1].x
  {
    forall w | w in units && w.y == cur.y
      ensures idx == 0 ==> cur.x <= w.x
      ensures idx > 0 && w.x < cur.x ==> w.x <= row[idx - 1].x
    {
      assert w in row;
      var q :| 0 <= q < |row| && row[q] == w;
    }
    if idx > 0 {
      assert row[idx - 1] in row;
    }
  }

  /** The same on the right: the entry after `cur`'s is the nearest unit to
      its right, and there is none exactly when `cur` is rightmost. */
  lemma RightNeighbour(units: seq<PlacedUnit>, row: seq<PlacedUnit>, idx: int, cur: PlacedUnit)
    requires IncreasingX(row) && 0 <= idx < |row| && row[idx] == cur
    requires forall u :: u in row <==> u in units && u.y == cur.y
    ensures idx == |row| - 1 <==> forall w :: w in units && w.y == cur.y ==> w.x <= cur.x
    ensures idx < |row| - 1 ==> row[idx + 1] in units && row[idx + 1].y == cur.y && cur.x < row[idx + 1].x &&
                                forall w :: w in units && w.y == cur.y && cur.x < w.x ==> row[idx + 1].x <= w.x
  {
    forall w | w in units && w.y == cur.y
      ensures idx == |row| - 1 ==> w.x <= cur.x
      ensures idx < |row| - 1 && cur.x < w.x ==> row[idx + 1].x <= w.x
    {
      assert w in row;
      var q :| 0 <= q < |row| && row[q] == w;
    }
    if idx < |row| - 1 {
      assert row[idx + 1] in row;
    }
  }

  /** ArrowLeft moves to the nearest unit to the left on the same row, and
      does nothing at the left end of the row. */
  lemma LeftTarget(units: seq<PlacedUnit>, c: int, cur: PlacedUnit)
    requires RowSorted(units) && FirstWithItsId(units, c) && cur == units[c]
    ensures Target(units, cur, ArrowLeft).None? <==>
            forall w :: w in units && w.y == cur.y ==> cur.x <= w.x
    ensures Target(units, cur, ArrowLeft).Some? ==>
            var v := Target(units, cur, ArrowLeft).value;
            v in units && v.y == cur.y && v.x < cur.x &&
            forall w :: w in units && w.y == cur.y && w.x < cur.x ==> w.x <= v.x
  {
    CurrentInRow(units, c);
    LeftNeighbour(units, Row(units, cur.y), FirstIndex(Row(units, cur.y), IdIs(cur.unit.id)), cur);
  }

  /** ArrowRight moves to the nearest unit to the right on the same row, and
      does nothing at the right end of the row. */
  lemma RightTarget(units: seq<PlacedUnit>, c: int, cur: PlacedUnit)
    requires RowSorted(units) && FirstWithItsId(units, c) && cur == units[c]
    ensures Target(units, cur, ArrowRight).None? <==>
            forall w :: w in units && w.y == cur.y ==> w.x <= cur.x
    ensures Target(units, cur, ArrowRight).Some? ==>
            var v := Target(units, cur, ArrowRight).value;
            v in units && v.y == cur.y && cur.x < v.x &&
            forall w :: w in units && w.y == cur.y && cur.x < w.x ==> v.x <= w.x
  {
    CurrentInRow(units, c);
    RightNeighbour(units, Row(units, cur.y), FirstIndex(Row(units, cur.y), IdIs(cur.unit.id)), cur);
  }

  /** In a row listed left to right, the reduce picks the unit closest to `cx`,
      the leftmost of those on a tie. */
  lemma NearestInRow(row: seq<PlacedUnit>, cx: int)
    requires row != [] && IncreasingX(row)
    ensures var v := row[NearestIndex(row, cx)];
            (forall w :: w in row ==> Dist(v, cx) <= Dist(w, cx)) &&
            (forall w :: w in row && w.x < v.x ==> Dist(v, cx) < Dist(w, cx))
  {
    var r := NearestIndex(row, cx);
    forall w | w in row
      ensures Dist(row[r], cx) <= Dist(w, cx)
      ensures w.x < row[r].x ==> Dist(row[r], cx) < Dist(w, cx)
    {
      var q :| 0 <= q < |row| && row[q] == w;
    }
  }

  /** On a layout-ordered unit list, the unit picked on a row that has units
      is on that row, closest in `x` to `cx`, and the leftmost of those on a tie. */
  lemma NearestOnRowSpec(units: seq<PlacedUnit>, y: int, cx: int)
    requires RowSorted(units) && exists p :: 0 <= p < |units| && units[p].y == y
    ensures NearestOnRow(units, y, cx).Some?
    ensures var v := NearestOnRow(units, y, cx).value;
            v in units && v.y == y &&
            (forall w :: w in units && w.y == y ==> Dist(v, cx) <= Dist(w, cx)) &&
            (forall w :: w in units && w.y == y && w.x < v.x ==> Dist(v, cx) < Dist(w, cx))
  {
    var p :| 0 <= p < |units| && units[p].y == y;
    RowIsOnRow(units, y);
    OnRowIncreasing(units, y);
    var row := OnRow(units, y);
    assert units[p] in row;
    NearestInRow(row, cx);
    assert NearestOnRow(units, y, cx) == Some(row[NearestIndex(row, cx)]);
  }

  /** The current row is found among the row positions. */
  lemma CurrentRowPosition(units: seq<PlacedUnit>, cur: PlacedUnit)
    requires cur in units
    ensures var m := RowPosition(units, cur.y);
            Increasing(FloorsY(units)) && 0 <= m < |FloorsY(units)| && FloorsY(units)[m] == cur.y &&
            forall w :: w in units ==> w.y in FloorsY(units)
  {
    FloorsYSpec(units);
    var c :| 0 <= c < |units| && units[c] == cur;
    assert cur.y in FloorsY(units);
    forall w | w in units ensures w.y in FloorsY(units) {
      var p :| 0 <= p < |units| && units[p] == w;
    }
  }

  /** The entry of a row position list is a row of some unit. */
  lemma RowHasUnit(units: seq<PlacedUnit>, n: nat)
    requires n < |FloorsY(units)|
    ensures exists p :: 0 <= p < |units| && units[p].y == FloorsY(units)[n]
  {
    FloorsYSpec(units);
    assert FloorsY(units)[n] in FloorsY(units);
  }

  /** In an ascending list, the entries next to position `m` are the closest
      values below and above `ys[m]`. */
  lemma Neighbours(ys: seq<int>, m: nat, y: int)
    requires Increasing(ys) && m < |ys| && y in ys
    ensures m == 0 ==> ys[m] <= y
    ensures m == |ys| - 1 ==> y <= ys[m]
    ensures m > 0 && y < ys[m] ==> y <= ys[m - 1]
    ensures m < |ys| - 1 && ys[m] < y ==> ys[m + 1] <= y
  {
    var q :| 0 <= q < |ys| && ys[q] == y;
  }

  /** For ascending row positions `ys` that hold exactly the units' rows, the
      row at `m` is the top one exactly when no unit lies above it, and
      otherwise the row before it is the closest one above. */
  lemma RowAbove(units: seq<PlacedUnit>, ys: seq<int>, m: nat)
    requires Increasing(ys) && m < |ys|
    requires forall w :: w in units ==> w.y in ys
    requires forall n :: 0 <= n < |ys| ==> exists p :: 0 <= p < |units| && units[p].y == ys[n]
    ensures m == 0 <==> forall w :: w in units ==> ys[m] <= w.y
    ensures m > 0 ==> ys[m - 1] < ys[m] && forall w :: w in units && w.y < ys[m] ==> w.y <= ys[m - 1]
  {
    forall w | w in units
      ensures m == 0 ==> ys[m] <= w.y
      ensures m > 0 && w.y < ys[m] ==> w.y <= ys[m - 1]
    {
      Neighbours(ys, m, w.y);
    }
    if m > 0 {
      var p :| 0 <= p < |units| && units[p].y == ys[m - 1];
      assert units[p] in units;
    }
  }

  /** The same for the row below: the row at `m` is the bottom one exactly
      when no unit lies below it, and otherwise the row after it is the
      closest one below. */
  lemma RowBelow(units: seq<PlacedUnit>, ys: seq<int>, m: nat)
    requires Increasing(ys) && m < |ys|
    requires forall w :: w in units ==> w.y in ys
    requires forall n :: 0 <= n < |ys| ==> exists p :: 0 <= p < |units| && units[p].y == ys[n]
    ensures m == |ys| - 1 <==> forall w :: w in units ==> w.y <= ys[m]
    ensures m < |ys| - 1 ==> ys[m] < ys[m + 1] && forall w :: w in units && ys[m] < w.y ==> ys[m + 1] <= w.y
  {
    forall w | w in units
      ensures m == |ys| - 1 ==> w.y <= ys[m]
      ensures m < |ys| - 1 && ys[m] < w.y ==> ys[m + 1] <= w.y
    {
      Neighbours(ys, m, w.y);
    }
    if m < |ys| - 1 {
      var p :| 0 <= p < |units| && units[p].y == ys[m + 1];
      assert units[p] in units;
    }
  }

  /** The row above `cur`'s: none exactly when no unit lies above `cur`;
      otherwise the closest row above, which holds some unit. */
  lemma AboveRow(units: seq<PlacedUnit>, cur: PlacedUnit)
    requires cur in units
    ensures var ys := FloorsY(units);
            var m := RowPosition(units, cur.y);
            0 <= m < |ys| &&
            (m == 0 <==> forall w :: w in units ==> cur.y <= w.y) &&
            (m > 0 ==> ys[m - 1] < cur.y &&
                       (forall w :: w in units && w.y < cur.y ==> w.y <= ys[m - 1]) &&
                       exists p :: 0 <= p < |units| && units[p].y == ys[m - 1])
  {
    CurrentRowPosition(units, cur);
    var ys := FloorsY(units);
    var m := RowPosition(units, cur.y);
    forall n | 0 <= n < |ys| ensures exists p :: 0 <= p < |units| && units[p].y == ys[n] {
      RowHasUnit(units, n);
    }
    RowAbove(units, ys, m);
    if m > 0 {
      RowHasUnit(units, m - 1);
    }
  }

  /** The row below `cur`'s: none exactly when no unit lies below `cur`;
      otherwise the closest row below, which holds some unit. */
  lemma BelowRow(units: seq<PlacedUnit>, cur: PlacedUnit)
    requires cur in units
    ensures var ys := FloorsY(units);
            var m := RowPosition(units, cur.y);
            0 <= m < |ys| &&
            (m == |ys| - 1 <==> forall w :: w in units ==> w.y <= cur.y) &&
            (m < |ys| - 1 ==> cur.y < ys[m + 1] &&
                              (forall w :: w in units && cur.y < w.y ==> ys[m + 1] <= w.y) &&
                              exists p :: 0 <= p < |units| && units[p].y == ys[m + 1])
  {
    CurrentRowPosition(units, cur);
    var ys := FloorsY(units);
    var m := RowPosition(units, cur.y);
    forall n | 0 <= n < |ys| ensures exists p :: 0 <= p < |units| && units[p].y == ys[n] {
      RowHasUnit(units, n);
    }
    RowBelow(units, ys, m);
    if m < |ys| - 1 {
      RowHasUnit(units, m + 1);
    }
  }

  /** ArrowUp moves to the row just above (the largest `y` below `cur`'s), to
      its unit closest in `x`, the leftmost on a tie; at the top row it does nothing. */
  lemma UpTarget(units: seq<PlacedUnit>, cur: PlacedUnit)
    requires RowSorted(units) && cur in units
    ensures Target(units, cur, ArrowUp).None? <==> forall w :: w in units ==> cur.y <= w.y
    ensures Target(units, cur, ArrowUp).Some? ==>
            var v := Target(units, cur, ArrowUp).value;
            v in units && v.y < cur.y &&
            (forall w :: w in units && w.y < cur.y ==> w.y <= v.y) &&
            (forall w :: w in units && w.y == v.y ==> Dist(v, cur.x) <= Dist(w, cur.x)) &&
            (forall w :: w in units && w.y == v.y && w.x < v.x ==> Dist(v, cur.x) < Dist(w, cur.x))
  {
    AboveRow(units, cur);
    var ys := FloorsY(units);
    var m := RowPosition(units, cur.y);
    assert Target(units, cur, ArrowUp) == if m > 0 then NearestOnRow(units, ys[m - 1], cur.x) else None;
    if m > 0 {
      NearestOnRowSpec(units, ys[m - 1], cur.x);
    }
  }

  /** ArrowDown moves to the row just below (the smallest `y` above `cur`'s), to
      its unit closest in `x`, the leftmost on a tie; at the bottom row it does nothing. */
  lemma DownTarget(units: seq<PlacedUnit>, cur: PlacedUnit)
    requires RowSorted(units) && cur in units
    ensures Target(units, cur, ArrowDown).None? <==> forall w :: w in units ==> w.y <= cur.y
    ensures Target(units, cur, ArrowDown).Some? ==>
            var v := Target(units, cur, ArrowDown).value;
            v in units && cur.y < v.y &&
            (forall w :: w in units && cur.y < w.y ==> v.y <= w.y) &&
            (forall w :: w in units && w.y == v.y ==> Dist(v, cur.x) <= Dist(w, cur.x)) &&
            (forall w :: w in units && w.y == v.y && w.x < v.x ==> Dist(v, cur.x) < Dist(w, cur.x))
  {
    BelowRow(units, cur);
    var ys := FloorsY(units);
    var m := RowPosition(units, cur.y);
    assert Target(units, cur, ArrowDown) == if m < |ys| - 1 then NearestOnRow(units, ys[m + 1], cur.x) else None;
    if m < |ys| - 1 {
      NearestOnRowSpec(units, ys[m + 1], cur.x);
    }
  }

  /** Every unit the reduce puts in a row is a unit of the list on that row. */
  lemma {:induction false} RowMembers(units: seq<PlacedUnit>, y: int)
    ensures multiset(Row(units, y)) == multiset(OnRow(units, y))
    ensures forall u :: u in Row(units, y) ==> u in units && u.y == y
  {
    if units != [] {
      RowMembers(units[..|units| - 1], y);
      SortPermutes(Row(units[..|units| - 1], y), XOrder);
    }
    forall u | u in Row(units, y) ensures u in units && u.y == y {
      assert u in multiset(Row(units, y));
    }
  }

  /** The unit picked on a row is a unit of the list. */
  lemma NearestOnRowInUnits(units: seq<PlacedUnit>, y: int, cx: int)
    ensures NearestOnRow(units, y, cx).Some? ==> NearestOnRow(units, y, cx).value in units
  {
    RowMembers(units, y);
  }

  /** Whatever key is pressed, the unit moved to is a unit of the list. */
  lemma TargetInUnits(units: seq<PlacedUnit>, cur: PlacedUnit, key: Key)
    ensures Target(units, cur, key).Some? ==> Target(units, cur, key).value in units
  {
    var ys := FloorsY(units);
    var m := RowPosition(units, cur.y);
    match key
    case ArrowLeft =>
      RowMembers(units, cur.y);
    case ArrowRight =>
      RowMembers(units, cur.y);
    case ArrowUp =>
      if 0 <= m - 1 < |ys| {
        NearestOnRowInUnits(units, ys[m - 1], cur.x);
      }
    case ArrowDown =>
      if 0 <= m + 1 < |ys| {
        NearestOnRowInUnits(units, ys[m + 1], cur.x);
      }
    case OtherKey =>
  }

  /** Any other key moves nowhere. */
  lemma OtherKeyTarget(units: seq<PlacedUnit>, cur: PlacedUnit)
    ensures Target(units, cur, OtherKey) == None
  {
  }
}
