# Parrot auction listings: a Dafny model of the warehouse map and its sheet handlers

Parrot Ops tracks auction lots, the bins they sit in and the zones of a
75 by 50 foot warehouse floor in a Google Sheets workbook with three tabs:
LOTS, BINS and ZONE_LAYOUT. A handful of Next.js route handlers read and
write those tabs, and a map editor page draws the zones and their bins and
lets an operator move, resize, rename, add and deactivate zones before
saving the layout.

This project models that core in Dafny:

- `results.dfy`, `text.dfy`, `sheet.dfy`: optional values and handler replies;
  JavaScript trimming, ASCII upper-casing and decimal number text; a tab as a
  sequence of rows of strings, with header lookup, trimmed cell reads, the
  first-match scan and `flatMap`/`filter` over rows.
- `store.dfy`: the workbook, a class whose three tab fields are changed by
  the Sheets value operations the handlers use (update one cell, batch
  update, append a row, write rows from a row, clear from a row). The LOTS
  and BINS tabs are read as `A:Z` (at most 26 cells a row) and ZONE_LAYOUT
  as `A:F` (at most 6).
- `bins_route.dfy`, `lots_route.dfy`, `zones_route.dfy`: the read-only GET
  handlers `/api/bins`, `/api/lots` and `/api/zones`.
- `zone_sheet.dfy`, `numbers.dfy`, `zone_layout.dfy`: `/api/zone-layout`,
  with GET (active zones with numeric fallbacks) and POST (sanitise, clamp
  into the warehouse, replace the whole tab).
- `lots_create.dfy`, `lots_move.dfy`, `bin_clean.dfy`: the POST handlers
  that append a lot, move a lot to another bin, and clear a bin.
- `map_page.dfy`: the map editor: bin colours, grouping bins by zone, tile
  placement inside a zone, snapping of drags and resizes, fresh zone names,
  and the editor state as a class.

Each state-changing handler is a method on the workbook proved against a
function that gives the reply and the tabs afterwards. The lemmas state what
the handler promises in terms of those functions. Examples: a moved lot is
listed under its new bin, cleaning a bin twice reports 0 the second time,
and saving a layout and reading it back gives exactly the active saved
zones.

JavaScript's `Number` applied to a cell's text is a parameter
`parse: string -> Option<int>`, where `None` stands for a value that is not
finite. The round-trip lemmas assume only that `parse` reads back the decimal
text the save writes, and `Text.ParseDecimal` is a parser that meets that
assumption.

Behaviour of the code worth knowing:

- A click on a bin tile selects the bin but does not clear the zone selection.
- A click on empty stage clears the zone selection but not the bin selection.
- The lot-create handler finds columns by a case-insensitive match on the
  trimmed header. The listing, move and clean handlers use an exact match on
  the trimmed header. The create-then-list lemma therefore assumes the two
  lookups agree.
- A ZONE_LAYOUT POST whose body is not JSON saves an empty list, which
  removes every zone row.
- `/api/zones` hands a cell that is not a number through `Number` unchecked.
  The zone is then listed with a NaN coordinate (`None` here), while
  `/api/zone-layout` falls back to the default.

## Model

| member | source | states |
|---|---|---|
| Text.Trim | app/api/bins/route.ts:40-41 | the result has no leading or trailing white space |
| Text.TrimIdempotent | app/api/zone-layout/route.ts:77 | trimming an already trimmed id changes nothing |
| Text.UpperIsFalse | app/api/zone-layout/route.ts:47-48 | a cell upper-cases to "FALSE" exactly when it is "false" in some letter case |
| Text.ParseDecimalInvertsIntToString | app/api/zone-layout/route.ts:85 | reading back the decimal text `String(n)` writes gives `n` |
| Text.IntToStringInjective | app/map/page.tsx:153-156 | different numbers are written as different text |
| Sheet.Field | app/api/bins/route.ts:40-41 | a cell read as a trimmed string is trimmed and empty for an absent column or cell |
| Sheet.IndexOf | app/api/bins/route.ts:30-37 | the header `indexOf`: -1 exactly when the name is absent, otherwise the first position holding it |
| Sheet.IndexOfIgnoreCase | app/api/lots/create/route.ts:28-35 | the `findIndex` lookup: the first header cell naming the field in any letter case, -1 when none does |
| Sheet.FirstMatch | app/api/lots/move/route.ts:43-46 | the first row from a start index whose trimmed key cell equals the key, none exactly when no row matches |
| Sheet.SetCell | app/api/lots/move/route.ts:49-56 | writing one cell sets it (extending a short row) and keeps every other cell |
| Sheet.WriteOneCell | app/api/lots/move/route.ts:49-56 | writing one cell of one row changes that cell and leaves every other cell and row as it was |
| Sheet.A1 | app/api/lots/move/route.ts:48-51 | the A1 reference of a zero-based column and row index names that column letter and the one-based row |
| Sheet.FlatMapComplete | app/api/bins/route.ts:39-50 | every row the projection keeps is in the `flatMap` result |
| Sheet.FlatMapAppend | app/api/bins/route.ts:39-50 | `flatMap` over joined rows is the join of the two results, so row order is kept |
| Sheet.FlatMapThenFilter | app/api/lots/route.ts:50-51 | dropping results inside the projection equals filtering the projected list |
| Store.Workbook.Update | app/api/lots/move/route.ts:49-56 | a one-cell update writes that cell of the tab and leaves the other tabs unchanged |
| Store.Workbook.BatchUpdate | app/api/bin/clean/route.ts:60-67 | a batch update applies the updates in order to the tab and leaves the other tabs unchanged |
| Store.Workbook.Append | app/api/lots/create/route.ts:59-66 | an append adds the row after the last row of the tab |
| Store.Workbook.UpdateRows | app/api/zone-layout/route.ts:105-110 | writing rows from a row replaces the tab from there on with those rows |
| Store.Workbook.ClearFrom | app/api/zone-layout/route.ts:98-101 | clearing from a row keeps only the rows above it |
| BinsRoute.ListBins | app/api/bins/route.ts:27-52 | no bins without data rows; each listed bin has a trimmed non-empty id and zone |
| BinsRoute.BinsSound | app/api/bins/route.ts:39-50 | every listed bin is the projection of one data row with a bin id and a zone |
| BinsRoute.BinsComplete | app/api/bins/route.ts:40-42 | every data row with a bin id and a zone is listed |
| BinsRoute.BinsNeedKeyColumns | app/api/bins/route.ts:33-42 | without a BinID or Zone column the list is empty |
| BinsRoute.BinsFollowRowOrder | app/api/bins/route.ts:39 | the bins come out in row order |
| LotsRoute.BinFilter | app/api/lots/route.ts:23 | a non-empty `bin` query parameter wins; when `bin` is absent or empty the filter is `binId` |
| LotsRoute.ListLots | app/api/lots/route.ts:31-66 | each listed lot has trimmed non-empty ids, and with a filter every lot is in that bin |
| LotsRoute.FilteredIsSublist | app/api/lots/route.ts:50-51 | the filtered listing is exactly the unfiltered listing restricted to the bin |
| LotsRoute.UnfilteredComplete | app/api/lots/route.ts:44-63 | every data row with a lot id and a bin id is listed when no bin is asked for |
| LotsRoute.FilteredComplete | app/api/lots/route.ts:44-63 | with a bin asked for, every data row with a lot id filed under that bin is listed |
| LotsRoute.LotsSound | app/api/lots/route.ts:44-63 | every listed lot is the projection of one data row |
| LotsRoute.LotsFollowRowOrder | app/api/lots/route.ts:44 | the lots come out in row order |
| ZoneSheet.InactiveOnlyWhenFalse | app/api/zones/route.ts:47-49 | a row is hidden exactly when its Active cell upper-cases to "FALSE"; a missing column or cell counts as active |
| ZoneSheet.HeaderColumns | app/api/zone-layout/route.ts:94 | a tab under the saved header finds its six columns at positions 0 to 5 |
| ZonesRoute.Coordinate | app/api/zones/route.ts:51-54 | an absent column or cell gives the default; a present cell is `Number` of its text, unchecked |
| ZonesRoute.ListZones | app/api/zones/route.ts:25-57 | no zones without data rows; each listed zone has a trimmed non-empty id |
| ZonesRoute.Get | app/api/zones/route.ts:59-62 | the warehouse is always 75 by 50 |
| ZonesRoute.ZonesSound | app/api/zones/route.ts:43-57 | every listed zone comes from one active row, with its coordinates read there |
| ZonesRoute.ZonesComplete | app/api/zones/route.ts:44-49 | every active row with a zone id is listed |
| ZonesRoute.ZonesFollowRowOrder | app/api/zones/route.ts:43-61 | the zones come out in sheet order: rows appended under the same header add their zones at the end |
| Numbers.Coerce | app/api/zone-layout/route.ts:11 | `Number(undefined)` is not finite; a present cell is whatever `parse` makes of it |
| Numbers.Num | app/api/zone-layout/route.ts:10-13 | `num` gives the number when it is finite and the fallback otherwise |
| Numbers.Clamp | app/map/page.tsx:11-13 | the result lies in the range when lo <= hi, is the input when it is inside, and is the nearer bound otherwise |
| ZoneLayoutRoute.Coordinate | app/api/zone-layout/route.ts:53-56 | a missing column or cell, or text that is not a number, gives the default |
| ZoneLayoutRoute.ListZones | app/api/zone-layout/route.ts:28-59 | every listed zone is active and has a trimmed non-empty id; no zones without data rows |
| ZoneLayoutRoute.Get | app/api/zone-layout/route.ts:29-31 | the warehouse is always 75 by 50 |
| ZoneLayoutRoute.LayoutSound | app/api/zone-layout/route.ts:43-59 | every listed zone comes from one active row, with `num` defaults 0, 0, 10, 10 |
| ZoneLayoutRoute.LayoutComplete | app/api/zone-layout/route.ts:44-49 | every active row with a zone id is listed |
| ZoneLayoutRoute.LayoutFollowRowOrder | app/api/zone-layout/route.ts:43-61 | the zones come out in sheet order: rows appended under the same header add their zones at the end |
| ZoneLayoutRoute.Submitted | app/api/zone-layout/route.ts:69-71 | only a non-array `zones` is refused; a missing `zones` or a body that is not JSON is the empty list |
| ZoneLayoutRoute.SanitiseZone | app/api/zone-layout/route.ts:76-83 | the id is trimmed, x and y are clamped to [0,75] and [0,50], w and h to [1,75] and [1,50], in-range numbers are kept, missing ones default, and active is false only when explicitly false |
| ZoneLayoutRoute.Sanitise | app/api/zone-layout/route.ts:75-84 | no more zones than submitted; every kept zone is in bounds with a non-empty trimmed id |
| ZoneLayoutRoute.ZoneRow | app/api/zone-layout/route.ts:85 | a saved row has exactly the six columns A to F |
| ZoneLayoutRoute.SavedTable | app/api/zone-layout/route.ts:89-111 | after a save the tab is the header followed by exactly one row per clean zone |
| ZoneLayoutRoute.SaveOutcome | app/api/zone-layout/route.ts:64-113 | 401 without a session, 400 for a non-array; an authorised save of an array (or of a missing or unreadable body, as the empty list) answers `count` = the number of sanitised zones and leaves exactly the header followed by one row per sanitised zone, in order; a refusal changes nothing |
| ZoneLayoutRoute.WriteHeader | app/api/zone-layout/route.ts:89-101 | after the header write and the clear, the tab is the header row alone and the other tabs are unchanged |
| ZoneLayoutRoute.WriteLayout | app/api/zone-layout/route.ts:89-111 | after the three writes the tab is the header followed by the given rows, whether or not there are any, and the other tabs are unchanged |
| ZoneLayoutRoute.Save | app/api/zone-layout/route.ts:89-113 | header write, clear and row write leave the tab as the outcome function says, and the other tabs unchanged |
| ZoneLayoutRoute.SaveReplaces | app/api/zone-layout/route.ts:97-111 | a save is a full replace: the previous layout leaves no trace |
| ZoneLayoutRoute.ClampExample | app/api/zone-layout/route.ts:78-82 | x = -5 becomes 0, w = 1000 becomes 75, a missing width becomes 10 |
| ZoneLayoutRoute.SanitiseAppend | app/api/zone-layout/route.ts:75-84 | sanitising keeps the submitted order: a concatenation is sanitised piece by piece |
| ZoneLayoutRoute.SanitiseComplete | app/api/zone-layout/route.ts:75-84 | every submitted zone whose trimmed id is not blank is kept, as its sanitised form |
| ZoneLayoutRoute.SanitiseKeepsClean | app/api/zone-layout/route.ts:75-84 | a list that is already clean passes through sanitising unchanged |
| ZoneLayoutRoute.SanitiseIdempotent | app/api/zone-layout/route.ts:75-84 | saving what a save produced produces it again |
| ZoneLayoutRoute.ReadSavedRow | app/api/zone-layout/route.ts:43-59 | a saved row reads back as its zone when active and not at all when inactive |
| ZoneLayoutRoute.SaveThenLoad | app/api/zone-layout/route.ts:15-113 | reading the layout after a save gives exactly the saved zones that are active, in order |
| ZoneLayoutRoute.SaveThenLoadDecimal | app/api/zone-layout/route.ts:15-113 | the same round trip with decimal number parsing, unconditionally |
| LotsCreate.LocateColumns | app/api/lots/create/route.ts:31-35 | each column index is -1 or a position in the header |
| LotsCreate.Span | app/api/lots/create/route.ts:51 | the new row is one longer than the largest column index |
| LotsCreate.BuildRow | app/api/lots/create/route.ts:51-56 | the array filled with "" and written cell by cell is the specified new row |
| LotsCreate.LastWriteWins | app/api/lots/create/route.ts:51-56 | writing the cells in the handler's order leaves in each cell the last value written there, which is the specified new row |
| LotsCreate.CreateOutcome | app/api/lots/create/route.ts:8-72 | 401, 400 for missing ids, 400 for a missing LotID or BinID column; success exactly otherwise, appending after the existing rows the one row `NewRow` builds from the located columns, and answering with the ids; a duplicate lot id is not refused |
| LotsCreate.Create | app/api/lots/create/route.ts:8-72 | the handler leaves LOTS as the outcome function says and the other tabs unchanged |
| LotsCreate.ColumnsDistinct | app/api/lots/create/route.ts:29-35 | the five looked-up columns are pairwise different |
| LotsCreate.NewRowFields | app/api/lots/create/route.ts:51-56 | the new row holds the lot id, bin id, title, status and buyer under their columns and "" elsewhere |
| LotsCreate.CreateThenList | app/api/lots/create/route.ts:59-66 | a created lot is listed under its bin right afterwards |
| LotsMove.MoveOutcome | app/api/lots/move/route.ts:8-67 | 401, 400 for missing fields, 404 "No lots found", 400 for missing columns, 404 "Lot not found" exactly when no data row carries the lot id, and success exactly when one does (with both key columns present); a refusal changes nothing |
| LotsMove.Move | app/api/lots/move/route.ts:42-66 | the scan that stops at the first match leaves LOTS as the outcome function says and the other tabs unchanged |
| LotsMove.MoveWritesOneCell | app/api/lots/move/route.ts:43-58 | a move changes only the BinID cell of the first row carrying the lot id |
| LotsMove.MoveThenList | app/api/lots/move/route.ts:49-56 | the moved lot is listed under its target bin afterwards |
| BinClean.ClearUpdatesWrite | app/api/bin/clean/route.ts:46-67 | applying the collected updates clears the BinID cell of every matching data row and nothing else |
| BinClean.ClearUpdatesCount | app/api/bin/clean/route.ts:52-68 | one update is collected per matching data row |
| BinClean.MarkEmpty | app/api/bin/clean/route.ts:79-104 | the BINS tab keeps its size and width, and is unchanged without data rows, without a BinID or Status column, or without a matching row |
| BinClean.LotsPhase | app/api/bin/clean/route.ts:30-70 | a LOTS tab without data rows is left alone with a count of 0; the phase refuses exactly when there are data rows and no LotID or BinID column |
| BinClean.CleanOutcome | app/api/bin/clean/route.ts:9-108 | 401, 400 without a bin id, 400 "Missing LotID or BinID column" exactly when the LOTS phase refuses, Ok otherwise; a LOTS tab without data rows gives 0; `setEmpty` is echoed, when true BINS becomes MarkEmpty of it whatever the count, when false BINS is untouched; a refusal changes nothing |
| BinClean.Clean | app/api/bin/clean/route.ts:9-108 | the handler leaves LOTS and BINS as the outcome function says and ZONE_LAYOUT unchanged |
| BinClean.ClearLots | app/api/bin/clean/route.ts:30-70 | the LOTS phase answers 400 without columns and otherwise writes the cleared tab and counts |
| BinClean.CollectClears | app/api/bin/clean/route.ts:46-57 | the loop collects exactly the specified updates, in row order |
| BinClean.MarkBin | app/api/bin/clean/route.ts:73-105 | the second loop writes the BINS tab as `MarkEmpty` says |
| BinClean.CleanedCountsMatches | app/api/bin/clean/route.ts:68 | `cleaned` is the number of data rows whose trimmed BinID was the bin |
| BinClean.CleanEmptiesBinCells | app/api/bin/clean/route.ts:46-67 | afterwards the matching rows have an empty BinID and every other cell is unchanged |
| BinClean.CleanThenListIsEmpty | app/api/bin/clean/route.ts:46-67 | listing the bin's lots after a clean gives none |
| BinClean.LotsPhaseTwice | app/api/bin/clean/route.ts:46-69 | a second pass over the cleared tab finds nothing |
| BinClean.CleanIdempotent | app/api/bin/clean/route.ts:9-108 | cleaning twice: the second run reports 0 and changes nothing |
| BinClean.MarkEmptyIdempotent | app/api/bin/clean/route.ts:87-101 | marking the bin empty twice is the same as once |
| BinClean.MarkEmptyWritesStatus | app/api/bin/clean/route.ts:87-101 | the first BINS row for the bin gets status "EMPTY" and nothing else changes |
| MapPage.BinColor | app/map/page.tsx:15-24 | the colour is the palette entry of the upper-cased status, and the EMPTY colour for anything else |
| MapPage.BinColorIgnoresCase | app/map/page.tsx:16 | the colour does not depend on letter case; an unknown or empty status looks like EMPTY |
| MapPage.GroupByZone | app/map/page.tsx:54-61 | one group per zone some bin names, holding exactly that zone's bins in list order |
| MapPage.ZoneBinsLookup | app/map/page.tsx:322 | looking a zone up gives its bins, none when no bin names it, and each bin appears under its own zone only |
| MapPage.TileGrid | app/map/page.tsx:326-335 | at least one column and one row; the grid is the largest that fits the padded zone when a tile fits |
| MapPage.TileCell | app/map/page.tsx:338-339 | tile `i` is in column `i mod cols`, row `i div cols` |
| MapPage.Tiles | app/map/page.tsx:337-341 | `min(bins, cols * rows)` tiles are drawn, the `i`-th for the `i`-th bin |
| MapPage.TilesDisjoint | app/map/page.tsx:338-341 | two tiles are a full tile and a gap apart across or down, so they never overlap |
| MapPage.TilesInsideZone | app/map/page.tsx:326-341 | in a zone big enough for one tile, every tile lies inside the zone's padding |
| MapPage.RoundFt | app/map/page.tsx:281-282 | snapping picks the nearest whole foot, halves rounding up |
| MapPage.RoundFtExact | app/map/page.tsx:281-282 | a drop on a foot boundary keeps that foot |
| MapPage.DragTarget | app/map/page.tsx:276-288 | after a drag x lies in [0,W] and y in [0,H], and a snapped position inside is kept |
| MapPage.DragNearest | app/map/page.tsx:276-288 | a zone dropped inside the warehouse lands within half a foot of the drop point |
| MapPage.ResizeTarget | app/map/page.tsx:298-308 | after a resize w lies in [1,W] and h in [1,H], and a snapped size inside is kept |
| MapPage.Apply | app/map/page.tsx:145 | `{ ...z, ...patch }`: each given field replaces the zone's, the rest are kept |
| MapPage.UpdateZones | app/map/page.tsx:140-148 | same length and order; zones with the id are patched, all others unchanged |
| MapPage.UpdateAbsent | app/map/page.tsx:145 | updating an id no zone has changes nothing |
| MapPage.UpdateIdempotent | app/map/page.tsx:145 | applying the same update twice equals applying it once |
| MapPage.Find | app/map/page.tsx:184 | `find`: the first zone with the id, none exactly when no zone has it |
| MapPage.NewZoneNameInjective | app/map/page.tsx:153-156 | different counters give different `NEW_ZONE_` names |
| MapPage.FreshZoneId | app/map/page.tsx:152-157 | the loop ends with `NEW_ZONE_n` for the least n >= 1 whose name no zone uses |
| MapPage.MapEditor.constructor | app/map/page.tsx:29-34 | no layout, no bins, nothing selected, edit mode off |
| MapPage.MapEditor.SelectedZone | app/map/page.tsx:184 | the selected zone is a zone of the layout carrying the selected id, and none exactly when there is no layout, no selection or no such zone |
| MapPage.MapEditor.Load | app/map/page.tsx:92-105 | a successful load replaces the layout, a failed one keeps it |
| MapPage.MapEditor.LoadBins | app/map/page.tsx:111-115 | an OK bins reply replaces the bins, otherwise they stay |
| MapPage.MapEditor.ToggleEditMode | app/map/page.tsx:196 | edit mode flips and nothing else changes |
| MapPage.MapEditor.UpdateZone | app/map/page.tsx:140-148 | the layout's zones are updated; nothing happens before a layout is loaded |
| MapPage.MapEditor.AddZone | app/map/page.tsx:150-162 | a 10 by 10 active zone at (0,0) under the first free name is appended after the existing zones, selected, and edit mode is on; nothing happens without a layout |
| MapPage.MapEditor.ClickZone | app/map/page.tsx:266-274 | a zone click selects the zone and clears the bin selection, unless it hit a bin tile |
| MapPage.MapEditor.ClickStage | app/map/page.tsx:226-229 | a press on empty stage clears the zone selection only |
| MapPage.MapEditor.ClickBinTile | app/map/page.tsx:355-360 | a tile click selects the bin and shows the lots listed for it |
| MapPage.MapEditor.DragEnd | app/map/page.tsx:275-288 | a drag, only in edit mode, moves the zone to the snapped, clamped position |
| MapPage.MapEditor.TransformEnd | app/map/page.tsx:289-309 | a resize, only in edit mode, gives the zone the snapped, clamped size |
| MapPage.MapEditor.Rename | app/map/page.tsx:526-531 | offered only while no bin is selected (page.tsx:506); with a zone selected and a non-empty name, the zone takes the name and stays selected under it |
| MapPage.MapEditor.Deactivate | app/map/page.tsx:538-542 | offered only while no bin is selected (page.tsx:506); once confirmed, the selected zone is marked inactive and the selection is cleared |
| MapPage.MapEditor.Save | app/map/page.tsx:164-182 | enabled only in edit mode (page.tsx:211); the zones are posted to the layout handler; when accepted, the layout is reloaded from what was written, otherwise the editor keeps its layout |
| MapPage.SaveThenReload | app/map/page.tsx:164-182 | the handler accepts the editor's posted zones, and reloading the tab it leaves shows exactly the sanitised active zones in order, so a deactivated zone disappears |

## Left out

- Authentication: the session lookup of every handler is a boolean `authorized` for the POST handlers. The 401 answers of the GET handlers are not modelled, because they call an external identity provider.
- The Sheets API client, spreadsheet ids, value input options and the range strings beyond the column letter and row number are not modelled: tabs are in-memory tables. Columns beyond Z (or F for ZONE_LAYOUT) are outside the ranges the handlers read.
- JSON parsing: body fields are strings, with `""` for a missing or falsy value, and booleans are `Option<bool>`. Non-string JSON values for ids, and `req.json()` throwing in the create, move and clean handlers, are not modelled.
- Floating point: coordinates, sizes and pixel positions are integers. `Number` on cell text is the `parse` parameter. `Math.round` is exact rounding of whole pixels. The `Math.max(1, …)` in the resize is kept, but a fractional foot or NaN reaching the editor is not modelled.
- Text.Upper: upper-cases ASCII letters only, because JavaScript's full Unicode case mapping is not modelled.
- Concurrency: the handlers' reads and writes are not atomic, and overlapping requests can lose updates. The model runs one request at a time.
- The page's rendering (Konva shapes, grid lines, the transformer attachment, labels), `fetch`, `alert`, `prompt` and `confirm` are not modelled. The answers to `prompt` and `confirm`, and the replies of fetches, are method parameters.
- The page's `saving` flag is not modelled: it is set and reset around one request and only disables the save button while the request is in flight. The `mounted` flag only delays rendering.
- The page's create-lot, clean-bin and move-lot buttons (app/map/page.tsx:407-498) only call the modelled handlers and then refresh the lot list. They are not modelled as editor methods.
- The `?? 75` and `?? 50` fallbacks for a missing warehouse in the page: the loaded layout always carries its warehouse size here.
- `encodeURIComponent` of the bin id in the lot-list request is not modelled: the query parameter is taken to arrive unchanged.
- The transformer's `boundBoxFunc` (app/map/page.tsx:381-385) only refuses on-screen boxes smaller than one foot while dragging a handle. It is not modelled.
