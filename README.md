# Floor-plan renderer: a Dafny model

The chessboard application shows a residential building as a "chessboard":
one column block per section (entrance), one row per floor and one box per
unit (flat, apartment, parking space, office, storage room). The drawing is
made by a renderer embedded in the host page as an iframe. This project
models that renderer's core logic in `public/floorplan/main.js` and the
unit-type name table in `src/translations.ts`, and proves properties of the
model.

- The document (sections → floors → units) is a value (`Document`). The
  host's UPDATE_UNIT, ADD_UNIT and DELETE_UNIT edits are functions on it,
  each with a specification lemma. The lemmas say which unit changes, which
  floor grows, what is removed and that nothing else changes.
- The layout pass (`Layout`) sorts floors by descending index. It sorts each
  floor's units by label with a stable sort (`StableSort`), over a
  numeric-aware label order (`Labels`). It then places every unit on a grid.
  `LayoutFacts` proves the placement formulas, that no two unit boxes
  overlap, and that the units on one row appear left to right. It also proves
  that the pass loses no unit and that running it twice changes nothing.
- Arrow-key navigation (`Navigation`) follows the handler's reduce, sort,
  findIndex and nearest-unit reduce. It is proved to reach the closest unit
  on the same row (left/right), or the nearest unit on the closest row above
  or below (up/down). It reaches nothing exactly when no such unit exists.
- The renderer's module state (`FloorPlanView.Renderer`) is a class. Its fields
  are the placed units, the selected group, the document, the popup flag and
  the messages posted to the host. Each handler is a method proved against
  the specification functions above, and each keeps the invariant `Valid()`:
  - the selection is a drawn group and the only highlighted one;
  - every floor of the document is label-sorted;
  - the placed units are exactly the document's layout.
- `Translations` models the name table and its lookup. It also models the
  lookup as JavaScript performs it (see Findings).

## Model

| member | source | states |
|---|---|---|
| StableSort.Sort | public/floorplan/main.js:56 | the stable sort that `Array.prototype.sort` performs, as an insertion sort over the comparator read as "result <= 0"; it keeps the length, and its other properties are the lemmas below |
| StableSort.SortPermutes | public/floorplan/main.js:56 | sorting a copy of the floors (or a floor's units) keeps exactly the same elements, as a multiset |
| StableSort.SortSorted | public/floorplan/main.js:59 | the result of the sort is ordered by the comparator, for any total preorder |
| StableSort.SortStable | public/floorplan/main.js:59 | the sort is stable: elements the comparator ties keep their relative order, as `Array.prototype.sort` guarantees |
| StableSort.SortOfSorted | public/floorplan/main.js:59 | sorting an already sorted list leaves it unchanged |
| StableSort.SortMap | public/floorplan/main.js:56-59 | sorting the floors and then each floor's units gives the same list as sorting each floor's units first, because the floor order ignores units |
| Labels.LabelLe | public/floorplan/main.js:59 | the simplified numeric-aware label order standing in for `localeCompare` (see Left out); it is a total preorder by the two lemmas below |
| Labels.LabelLeTotal | public/floorplan/main.js:59 | any two labels are comparable by the label order |
| Labels.LabelLeTransitive | public/floorplan/main.js:59 | the label order is transitive |
| Labels.NumericAware | public/floorplan/main.js:59 | the numeric collation orders "2" before "10", and digits before letters |
| Layout.UnitOrderIsTotalPreorder | public/floorplan/main.js:59 | the unit comparator (by label) is a total preorder |
| Layout.FloorOrderIsTotalPreorder | public/floorplan/main.js:56 | the floor comparator `b.index - a.index` is a total preorder (higher floors first) |
| Layout.Normalize | public/floorplan/main.js:59 | the document after the layout pass has sorted every floor's unit list in place; its properties are `LayoutFacts.NormalizeSpec` and `LayoutFacts.NormalizeTwice` |
| Layout.GenerateLayout | public/floorplan/main.js:46-97 | the layout `generateStructuredLayout` returns: sections in document order, floors by descending index, units by label, placed on the grid; its properties are the `LayoutFacts` lemmas |
| Layout.MaxUnits | public/floorplan/main.js:57-60 | the widest floor's unit count: no floor has more units, some floor has exactly that many, and it is 0 for a section without floors |
| Layout.CollectTypesSpec | public/floorplan/main.js:61 | adding each unit's type to the set keeps it free of duplicates and holds exactly the earlier types and the types of the units seen |
| Layout.UsedUnitTypesSpec | public/floorplan/main.js:91 | the posted `usedUnitTypes` has no duplicates and holds exactly the types of the laid-out units |
| LayoutFacts.UnitPlacement | public/floorplan/main.js:70-77 | unit `j` of floor `k` in section `i` is drawn at x = section x + 50 + 80·j and y = 50 + 100·k, with size 70×90 |
| LayoutFacts.SectionStarts | public/floorplan/main.js:64-85 | the first section starts at x = 10, and each next one starts its width (50 + 80·widest floor + 10) plus 50 further right |
| LayoutFacts.SectionXMonotone | public/floorplan/main.js:85 | section start positions never decrease from left to right |
| LayoutFacts.UnitInsideSection | public/floorplan/main.js:64 | every unit box lies to the right of its section's floor labels and ends more than 50 before the next section starts |
| LayoutFacts.SectionsApart | public/floorplan/main.js:85 | a unit of an earlier section ends strictly left of every unit of a later section |
| LayoutFacts.SameSectionApart | public/floorplan/main.js:66-82 | two distinct units of one section do not overlap (different floors are 100 apart vertically, neighbours 80 apart horizontally) |
| LayoutFacts.NoOverlapPair | public/floorplan/main.js:64-85 | any two distinct unit positions of a layout have disjoint boxes |
| LayoutFacts.NoOverlap | public/floorplan/main.js:46-97 | in the layout of any document no two unit boxes overlap |
| LayoutFacts.LayoutOfUnits | public/floorplan/main.js:70-79 | the placed units, with their boxes stripped, are the sections' units in drawing order |
| LayoutFacts.AllUnitsRowSorted | public/floorplan/main.js:53-86 | in `allUnits`, units that share a y appear in strictly increasing x |
| LayoutFacts.FloorRows | public/floorplan/main.js:56-59 | the floors of each section come in non-increasing index order with label-sorted units, and are a permutation of the section's floors |
| LayoutFacts.AllUnitsSpec | public/floorplan/main.js:53-80 | `allUnits` holds every unit of the document exactly once (same multiset and count), in drawing order |
| LayoutFacts.SortUnitsTwice | public/floorplan/main.js:59 | sorting a floor's units twice is the same as sorting them once |
| LayoutFacts.OrderedFloorsNormalize | public/floorplan/main.js:56-59 | ordering the floors of a section whose units are already sorted gives the same floors as ordering the original section |
| LayoutFacts.NormalizeTwice | public/floorplan/main.js:59 | the in-place unit sort the layout pass applies to the document is idempotent |
| LayoutFacts.NormalizeSpec | public/floorplan/main.js:59 | that in-place sort keeps the sections and floors, leaves each floor's units sorted and with the same multiset, and does not change the layout |
| Document.UpdateUnit | public/floorplan/main.js:246-249 | the UPDATE_UNIT edit: the first unit with the id, across all sections and floors, takes the new label and type; `UpdateUnitSpec` states its properties |
| Document.IndexOfId | public/floorplan/main.js:246 | `find(u => u.id === id)` over all units in document order: the first unit with the id, or none when no unit has it |
| Document.ReplaceFirstSpec | public/floorplan/main.js:246-249 | relabelling changes only the first unit with the id; the list is unchanged when no unit has the id |
| Document.UpdateSectionsUnits | public/floorplan/main.js:246-249 | the units of the updated sections are the document's units with the first match relabelled |
| Document.UpdateUnitSpec | public/floorplan/main.js:245-251 | UPDATE_UNIT keeps the outline and the unit count, and gives the first unit with the id the new label and type; an unknown id changes nothing |
| Document.FindFirst | public/floorplan/main.js:254 | `find`: the position of the first element satisfying the predicate, or none exactly when no element does |
| Document.AddTarget | public/floorplan/main.js:254 | the floor ADD_UNIT targets is the first floor with the floor name in the first section with the section name; there is none exactly when that section is missing or has no such floor |
| Document.AppendToFloor | public/floorplan/main.js:256 | pushing a unit onto one floor changes only that floor's unit list, keeps the outline, and adds exactly that unit to the document |
| Document.AddUnit | public/floorplan/main.js:254-256 | the ADD_UNIT edit: the unit is pushed onto the target floor, if there is one; `AddUnitSpec` states its properties |
| Document.AddUnitSpec | public/floorplan/main.js:253-258 | ADD_UNIT appends the unit to the named floor of the first section with the name, changes no other floor and adds exactly one unit; no such floor, no change |
| Document.Without | public/floorplan/main.js:261 | the filter keeps exactly the units whose id differs |
| Document.DeleteFromSectionsUnits | public/floorplan/main.js:261 | filtering every floor of every section removes the units with the id from the document-order unit list and nothing else |
| Document.WithoutTwice | public/floorplan/main.js:261 | filtering by an id twice is the same as once |
| Document.DeleteUnit | public/floorplan/main.js:261 | the DELETE_UNIT edit: every floor's unit list is filtered by the id; `DeleteUnitSpec` states its properties |
| Document.DeleteUnitSpec | public/floorplan/main.js:260-262 | DELETE_UNIT keeps the outline and removes every unit with the id and only those; it is idempotent, and without such a unit it changes nothing |
| Navigation.FirstIndex | public/floorplan/main.js:203 | `findIndex`: the first position satisfying the predicate, or -1 exactly when none does |
| Navigation.NearestIndex | public/floorplan/main.js:218 | the reduce with strict `<` picks a unit at the least distance from the current x, the leftmost one on a tie |
| Navigation.Row | public/floorplan/main.js:195-199 | `unitsByY[y]` as the reduce builds it (sort the row so far by x, then push); never longer than `allUnits`; `RowMembers` and `RowIsOnRow` state what it holds |
| Navigation.FloorsY | public/floorplan/main.js:200 | `floorsY`: the row keys sorted ascending; `FloorsYSpec` states its properties |
| Navigation.Target | public/floorplan/main.js:204-221 | the unit the key switch picks (`nextUnit`); the `LeftTarget`, `RightTarget`, `UpTarget`, `DownTarget` and `OtherKeyTarget` lemmas characterise it |
| Navigation.Vertical | public/floorplan/main.js:211-219 | ArrowUp/ArrowDown: `indexOf` of the current row in `floorsY`, one step up or down, and the nearest unit of that row if the index is in range |
| Navigation.NearestOnRow | public/floorplan/main.js:216-218 | the nearest-x reduce over `unitsByY[nextFloorY]`; `NearestOnRowSpec` states its properties |
| Navigation.OnRow | public/floorplan/main.js:195-199 | holds exactly the units of `allUnits` that have the given y |
| Navigation.Ys | public/floorplan/main.js:200 | the keys of `unitsByY`: exactly the y values of the units |
| Navigation.RowIsOnRow | public/floorplan/main.js:195-199 | when `allUnits` rows are left to right, the reduce that sorts each row before pushing yields the row in `allUnits` order |
| Navigation.RowMembers | public/floorplan/main.js:195-199 | `unitsByY[y]` holds exactly the units with that y, each as often as in `allUnits` |
| Navigation.OnRowIncreasing | public/floorplan/main.js:196 | the units of a row of a left-to-right `allUnits` have strictly increasing x |
| Navigation.FloorsYSpec | public/floorplan/main.js:200 | `floorsY` is strictly increasing and holds exactly the y values of the units |
| Navigation.FirstMatchInRow | public/floorplan/main.js:203 | in a left-to-right row, the first entry with the current unit's id is the current unit itself when no earlier unit of `allUnits` has that id |
| Navigation.CurrentInRow | public/floorplan/main.js:202-203 | when the current unit is the first unit of `allUnits` with its id (ids need not be unique), `findIndex` on its row finds it, and the row holds exactly the units at its height, left to right |
| Navigation.LeftTarget | public/floorplan/main.js:205-207 | from the first unit with its id, ArrowLeft reaches nothing iff no unit of the row is left of the current one; otherwise it reaches the closest unit to its left on the same row |
| Navigation.RightTarget | public/floorplan/main.js:208-210 | from the first unit with its id, ArrowRight reaches nothing iff no unit of the row is right of the current one; otherwise it reaches the closest unit to its right on the same row |
| Navigation.NearestInRow | public/floorplan/main.js:218 | the unit the reduce picks is no farther from the current x than any unit of the row, and strictly closer than every unit left of it |
| Navigation.NearestOnRowSpec | public/floorplan/main.js:216-218 | on an occupied row the nearest-unit search reaches a unit of that row at the least distance, the leftmost one on a tie |
| Navigation.AboveRow | public/floorplan/main.js:213-215 | the current row's index in `floorsY` is 0 iff no unit lies above; otherwise the previous entry is the closest occupied row above |
| Navigation.BelowRow | public/floorplan/main.js:213-215 | the current row's index is the last iff no unit lies below; otherwise the next entry is the closest occupied row below |
| Navigation.UpTarget | public/floorplan/main.js:211-219 | ArrowUp reaches nothing iff no unit lies higher; otherwise it reaches the unit of the closest row above that is nearest in x, the leftmost one on a tie |
| Navigation.DownTarget | public/floorplan/main.js:211-219 | ArrowDown reaches nothing iff no unit lies lower; otherwise it reaches the unit of the closest row below that is nearest in x, the leftmost one on a tie |
| Navigation.TargetInUnits | public/floorplan/main.js:204-221 | every unit an arrow key reaches is one of the drawn units |
| Navigation.OtherKeyTarget | public/floorplan/main.js:204-221 | any other key reaches nothing |
| FloorPlanView.OrderSection | public/floorplan/main.js:56-62 | the first pass over one section yields its floors in drawing order with sorted units, the widest floor's unit count and the updated set of unit types |
| FloorPlanView.SortEachFloor | public/floorplan/main.js:58-62 | the loop over the sorted floors sorts every floor's units, keeps the running maximum and collects the types |
| FloorPlanView.OrderFloor | public/floorplan/main.js:59-61 | one iteration of that loop: the floor with sorted units, the updated maximum and the updated set of types |
| FloorPlanView.CollectFloorTypes | public/floorplan/main.js:61 | the loop that adds every unit's type to the set of used types |
| FloorPlanView.FilterFloors | public/floorplan/main.js:261 | the loop over one section's floors replaces each floor's units by those without the id |
| FloorPlanView.FilterSections | public/floorplan/main.js:261 | the loop over the sections gives exactly the document DELETE_UNIT specifies |
| FloorPlanView.NormalFloorsSorted | public/floorplan/main.js:59 | after the layout pass every floor of the document is label-sorted, and laying it out again gives the same layout |
| FloorPlanView.SelectedIsFirstWithItsId | public/floorplan/main.js:192 | the unit `allUnits.find` returns for the selected group is the first unit with its id, which is the hypothesis of `LeftTarget`, `RightTarget` and `CurrentInRow` |
| FloorPlanView.Renderer.constructor | public/floorplan/main.js:7-10 | the initial state: no units, no selection, no document, no popup, nothing posted |
| FloorPlanView.Renderer.LayOutFloors | public/floorplan/main.js:66-83 | the placement loop of one section yields the section's floor layouts and appends their units to `allUnits`, changing nothing else |
| FloorPlanView.Renderer.LayOutSection | public/floorplan/main.js:55-85 | one section's iteration: its layout, its width, the updated types, and its units appended to `allUnits` |
| FloorPlanView.Renderer.GenerateStructuredLayout | public/floorplan/main.js:46-97 | returns the specified layout, rebuilds `allUnits` as its units, leaves the document's units sorted in place, and posts the used types and the document |
| FloorPlanView.Renderer.RedrawAll | public/floorplan/main.js:40-44 | redraws the document with nothing selected and restores the invariant |
| FloorPlanView.Renderer.DeselectAll | public/floorplan/main.js:136-141 | the selected group loses its highlight and nothing is selected; nothing else changes |
| FloorPlanView.Renderer.SelectUnit | public/floorplan/main.js:124-134 | the group becomes the only highlighted and selected one, and the first unit with its id is posted as UNIT_CLICK |
| FloorPlanView.Renderer.Click | public/floorplan/main.js:148-156 | a click off the units clears the selection and posts STAGE_CLICK; a click on a unit makes its group the only selected one and posts UNIT_CLICK with the first unit having the group's id; the document, the units and the popup flag stay as they were |
| FloorPlanView.Renderer.KeyTarget | public/floorplan/main.js:190-221 | the unit the keydown handler moves to: none with the popup shown or nothing selected, otherwise `Target` from the first unit with the selected group's id |
| FloorPlanView.Renderer.KeyDown | public/floorplan/main.js:190-227 | with the popup hidden and a group selected, an arrow key that reaches a unit selects the first group with that unit's id and posts that unit as UNIT_CLICK; otherwise nothing changes |
| FloorPlanView.Renderer.OnLoadData | public/floorplan/main.js:233-235 | a present payload becomes the document, label-sorted in place; `allUnits` becomes its layout's units, nothing is selected, and DATA_PROCESSED with the used types and the document is posted; a missing payload changes nothing |
| FloorPlanView.Renderer.OnSetPopupVisibility | public/floorplan/main.js:242-244 | sets the popup flag and nothing else |
| FloorPlanView.Renderer.OnUpdateUnit | public/floorplan/main.js:245-252 | with a unit of that id the document becomes UPDATE_UNIT's result, sorted, with its layout's units drawn, nothing selected and DATA_PROCESSED posted; otherwise nothing changes |
| FloorPlanView.Renderer.OnAddUnit | public/floorplan/main.js:253-259 | with the named floor present, the document gains the unit "unit-<stamp>" and is drawn anew as for UPDATE_UNIT; otherwise nothing changes |
| FloorPlanView.Renderer.OnDeleteUnit | public/floorplan/main.js:260-263 | with a document, it becomes DELETE_UNIT's result and is drawn anew as for UPDATE_UNIT, even when no unit had the id; without one nothing changes |
| FloorPlanView.Renderer.OnGetDataAsJson | public/floorplan/main.js:264-266 | posts the document as it stands (`reconstructJSON`) and changes nothing else |
| FloorPlanView.Renderer.Receive | public/floorplan/main.js:229-268 | messages from another origin, RESET_VIEW and unknown types change no modelled state; DESELECT_ALL clears the selection and changes nothing else; SET_POPUP_VISIBILITY sets the flag and nothing else; GET_DATA_AS_JSON posts the document and changes nothing else; LOAD_DATA, UPDATE_UNIT, ADD_UNIT (with id "unit-" + the clock reading) and DELETE_UNIT draw the result of the corresponding edit anew (document, `allUnits`, no selection, DATA_PROCESSED posted, popup flag kept), and change nothing when the payload, the document, the id or the floor is missing |
| Translations.TableKeys | src/translations.ts:3-9 | the table names exactly flat, apartment, parking, commercial and warehouse, all with non-empty names |
| Translations.GetUnitTypeTranslation | src/translations.ts:11-13 | a type the table names gets its Russian name; any other type is returned as it is |
| Translations.KnownTypes | src/translations.ts:3-13 | each of the five types maps to its Russian name |
| Translations.UnknownTypes | src/translations.ts:11-13 | a type outside the table, such as the renderer's "storage", is shown as it is |
| Translations.NonEmptyName | src/translations.ts:11-13 | the shown name is empty iff the type is empty |
| Translations.PropertyRead | src/translations.ts:12 | the property read yields a string iff the table owns the key, and a non-string iff the key is inherited from `Object.prototype` |
| Translations.TranslationAsWritten | src/translations.ts:12 | `unitTypeTranslations[type] \|\| type` with JavaScript's property read and falsy fallback; `ConstructorIsNotAString` and `AsWrittenAgreesElsewhere` state its properties |
| Translations.ConstructorIsNotAString | src/translations.ts:12 | as written, the type "constructor" yields the inherited function, not a string |
| Translations.AsWrittenAgreesElsewhere | src/translations.ts:11-13 | the lookup as written yields a string exactly for the table's own keys and for non-inherited names, and there it agrees with the own-key lookup |

## Left out

- Drawing with Konva (stage, layer, texts, rectangles, stroke colours and widths, the colour legend's `defaultColors`) is not modelled. A Konva group is represented by its index in `allUnits`, because `drawLayout` draws the groups in the order the layout pushes the units. A highlighted group stands for the selection stroke.
- Zooming (the wheel handler), dragging, and RESET_VIEW's viewport reset are not modelled; RESET_VIEW changes no modelled state.
- The double-click handler (UNIT_DBL_CLICK) is not modelled: its position payload comes from the drawing surface.
- The postMessage origin comparison is a boolean parameter of `Receive`. The ADD_UNIT clock reading `Date.now()` is the string parameter `stamp`/`now`. The `stage.findOne('#id')` lookup is modelled as the first group whose unit has that id.
- `localeCompare` with `{ numeric: true }` is replaced by `Labels.LabelLe`: all-digit labels compare by value and come before other labels, and other labels compare by code point. Locale collation rules are not modelled.
- Numbers are unbounded integers. Floor indexes and coordinates are integers, and `parseFloat` of a key is the key's own value.
- UPDATE_UNIT, ADD_UNIT and DELETE_UNIT before any LOAD_DATA throw a TypeError in the source. The model treats them as no-ops. SET_POPUP_VISIBILITY with a missing payload is not modelled either.
- The `if (!originalData)` branch of `generateStructuredLayout` (line 47-49) never runs, because every caller sets the document first. The model leaves it out.
- The deep copies and the aliasing between the layout's floor copy and the document are modelled by their effect: the document's floors get the same unit sort as the layout.
- FloorPlanView.Renderer.Valid: states that every floor of the loaded document is label-sorted. It does not state the stronger fact that the document is a fixpoint of the unit sort, although that follows by `LayoutFacts.SortOfSorted`.

## Findings

| source | as written | input that shows it | evidently intended | confidence | as-written member | corrected member |
|---|---|---|---|---|---|---|
| src/translations.ts:12 | `unitTypeTranslations[type] \|\| type` reads inherited properties of the object literal | unit type "constructor" (or "toString", "valueOf", …) yields the `Object` function instead of a string | a type missing from the table is shown as it is | not executed | Translations.TranslationAsWritten (with ConstructorIsNotAString) | Translations.GetUnitTypeTranslation |
