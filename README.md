# SAP Business One screen components — a verified model

This project models the core of `sbo-components.js`, a browser library that
draws SAP Business One style screens (grids, matrices, tab controls, button
combos, windows) as HTML strings and wires their click and keyboard
handlers. The model has four parts:

- **Rendering builders.** Each becomes a function that returns a structured
  view: the cells, classes and attributes the HTML would carry. Where the
  source builds its markup with a loop, a method with that loop is proved
  to equal the function.
- **Handlers.** Each one that changes the page becomes a method on a small
  page class. The class holds the widgets of that kind as a sequence, and
  `document.getElementById` becomes a first-match lookup in it. Each
  handler's `ensures` gives the new page state as a function of the old
  one. The events it dispatches and the alerts it shows go to an `EventLog`.
- **Edit-mode manager.** The `SBOEditMode` object, whose methods update its
  own fields, becomes a class.
- **Properties.** The properties the source promises are lemmas about those
  functions: one active tab, at most one open dropdown, one selected row,
  sort cycles, and positions that survive the round trip through their
  `px` style text.

Modules, by file:

| file | module | what it covers |
|---|---|---|
| text.dfy | Text | `trim`, `parseInt` (radix 10), integer interpolation |
| dom.dfy | Dom, Js, Events | elements as class sets and attribute maps, JavaScript values and truthiness, dispatched events and alerts |
| fields.dfy | Fields | caption colon, combo box option list |
| grid_format.dfy | GridFormat | grid cell formatting and alignment |
| grid_render.dfy | GridRender | grid header and body rows |
| grid_handlers.dfy | GridHandlers | grid sort and row click |
| matrix_render.dfy | MatrixRender | matrix header, rows, cell controls, control bar |
| matrix_handlers.dfy | MatrixHandlers | matrix scroll, row-number click, add and delete |
| tabs.dfy | Tabs | tab control rendering and tab click |
| button_combo.dfy | ButtonCombo | ButtonCombo rendering, main click, dropdown toggle, option choice, outside click |
| linked_button.dfy | LinkedButton | linked (orange arrow) button click and enable state |
| option_button.dfy | OptionButton | option button group selection |
| window.dfy | Window | window rendering, minimize, maximize, close |
| edit_mode.dfy | EditMode | the layout editor SBOEditMode |

## Model

| member | source | states |
|---|---|---|
| Fields.CaptionTextProperties | sbo-components.js:34 | the rendered caption ends with ':', starts with the caption, adds a colon exactly when the caption lacks one, and is a fixed point |
| Fields.BuildComboOptions | sbo-components.js:592-614 | the option-building loop yields exactly the specified option list |
| Fields.ComboOptionListShape | sbo-components.js:590-614 | `values` wins over `validValues` when non-empty; the empty option comes first when allowed; then one option per item, keeping its value, selected exactly when the value is the selected one, showing text, else description, else value |
| Fields.ItemOptionsAt | sbo-components.js:610-614 | option k is built from item k |
| Fields.DisplayTextFallback | sbo-components.js:612 | the display text is one of text, description and value, and is empty only when all three are |
| GridFormat.FormatGridCellValue | sbo-components.js:1047-1063 | null, undefined and '' format as ''; otherwise the result is a string or the value itself |
| GridFormat.FalsyCellIsEmpty | sbo-components.js:1029-1030 | every falsy cell value (absent, null, '', 0, false) shows as '' |
| GridFormat.BooleanCellText | sbo-components.js:1029-1059 | a boolean column shows 'Evet' for a truthy value and '' otherwise, never 'Hayır' |
| GridFormat.FormatterFalseIsHayir | sbo-components.js:1058-1059 | called directly, the formatter prints 'Hayır' for false |
| GridFormat.PercentageCellText | sbo-components.js:1056-1057 | a non-zero number in a percentage column shows as its decimal text followed by '%', and that text parses back to the number |
| GridFormat.NumericTypePassesNonNumbers | sbo-components.js:1052-1055 | a truthy non-number in a numeric column is shown as interpolated |
| GridFormat.NumberCellText | sbo-components.js:1052-1053 | a non-zero number in a number or currency column is printed by the locale formatter |
| GridFormat.AlignmentByType | sbo-components.js:1065-1076 | right alignment exactly for number, currency and percentage; center exactly for date; left otherwise |
| GridRender.CreateGridHeaderRow | sbo-components.js:970-1004 | the header loop yields the specified header row |
| GridRender.BuildGridRowCells | sbo-components.js:1015-1037 | the cell loop of one body row yields the row-number cell and the visible columns' cells |
| GridRender.CreateGridDataRows | sbo-components.js:1006-1045 | the row loop yields one specified row per datum |
| GridRender.CreateSBOGrid | sbo-components.js:922-968 | the grid's id, classes, header, rows and record-count footer |
| GridRender.VisibleMembers | sbo-components.js:977-1024 | the visible columns are exactly the columns marked visible |
| GridRender.ColumnHeadersAt | sbo-components.js:977-1000 | header k belongs to visible column k |
| GridRender.RowCellsAt | sbo-components.js:1024-1037 | data cell k belongs to visible column k |
| GridRender.GridHeaderShape | sbo-components.js:970-1004 | one header cell per visible column, in order, after the '#' cell when row numbers are shown; each is sortable exactly when sorting is on |
| GridRender.GridRowShape | sbo-components.js:1006-1045 | row i carries data-row-index i, shows i+1, alternates exactly on odd rows when alternation is on, and has one cell per visible column |
| GridRender.GridShape | sbo-components.js:922-968 | one body row per datum, each as wide as the header |
| GridRender.HiddenColumnsHaveNoHeader | sbo-components.js:977 | a hidden column gets no header cell |
| GridHandlers.GridDom.HandleGridSort | sbo-components.js:1078-1106 | the clicked header moves asc to desc to none to asc; every other header loses its sort state; one header at most is sorted; the event carries the column and the new direction |
| GridHandlers.GridDom.HandleGridRowClick | sbo-components.js:1108-1127 | exactly the clicked row carries the selected class, nothing else changes, and the event carries the parsed row index |
| GridHandlers.MountedRowIndexes | sbo-components.js:1017-1117 | on a rendered grid the row index read back from row j is j |
| MatrixRender.CreateMatrixHeaderRow | sbo-components.js:1182-1211 | the header loop yields the specified header row |
| MatrixRender.BuildMatrixRowCells | sbo-components.js:1219-1248 | the cell loop of one matrix row yields the specified cells |
| MatrixRender.CreateMatrixDataRows | sbo-components.js:1213-1254 | the row loop yields exactly rowCount specified rows |
| MatrixRender.CreateSBOMatrix | sbo-components.js:1133-1180 | the wrapper's id, classes and row count, the header, the rows, and a control bar holding only the scroll buttons |
| MatrixRender.MatrixColumnHeadersAt | sbo-components.js:1190-1207 | header k belongs to visible column k |
| MatrixRender.MatrixRowCellsAt | sbo-components.js:1230-1248 | data cell k belongs to visible column k |
| MatrixRender.MatrixRowShape | sbo-components.js:1213-1254 | row i carries data-row-index i, shows i+1 when row numbers are shown, and cell k holds visible column k's control for row i |
| MatrixRender.MatrixShape | sbo-components.js:1133-1254 | exactly rowCount rows (none for a negative count), each as wide as the header |
| MatrixRender.CellContentBase | sbo-components.js:1256-1311 | every control but 'static' gets the id `matrixId_i_columnId`, is disabled exactly when the column is not editable, and gets the row's tab index; an unknown type gives an EditText |
| MatrixRender.TabIndexOfNumber | sbo-components.js:1263 | the tab index is i*100 plus the column's tab order, with 0 for an absent one |
| MatrixRender.CellIdInjective | sbo-components.js:1233 | distinct (row, column) pairs of one matrix get distinct cell ids: the id determines the row index and the column id |
| MatrixRender.RenderedControlsLackAddDelete | sbo-components.js:1174-1364 | the rendered control bar never holds add or delete, though the options allow them |
| MatrixRender.IntendedControlsOffer | sbo-components.js:1334-1364 | the intended control bar keeps the scroll buttons and offers add exactly when allowed and delete exactly when allowed |
| MatrixHandlers.MatrixPage.ScrollUp | sbo-components.js:1314-1322 | the page becomes ScrolledBy(-30): only the first matrix with the id moves, its container up by 30; a missing matrix or container changes nothing |
| MatrixHandlers.MatrixPage.ScrollDown | sbo-components.js:1324-1332 | the page becomes ScrolledBy(30): only the first matrix with the id moves, its container down by 30 |
| MatrixHandlers.ScrolledBy | sbo-components.js:1314-1332 | a scroll changes only the scroll offset of the first matrix with the id, by the step, and only when it has a container |
| MatrixHandlers.ScrollRoundTrip | sbo-components.js:1314-1332 | scrolling a page down and then up, as the two handlers do, returns every matrix to where it was |
| MatrixHandlers.FindMatrixSameIds | sbo-components.js:1315-1325 | a scroll keeps every id, so the second handler finds the same matrix as the first |
| MatrixHandlers.MatrixPage.HandleRowNumberClickAsWritten | sbo-components.js:1366-1384 | the `.sbo-matrix` lookup as written: no ancestor matches, so nothing changes and no event is sent |
| MatrixHandlers.RowNumberClickFindsNoMatrix | sbo-components.js:1156-1367 | no ancestor of a row-number cell in a rendered matrix carries `sbo-matrix` |
| MatrixHandlers.MatrixPage.HandleRowNumberClick | sbo-components.js:1366-1384 | corrected: exactly the clicked row of the matrix is selected and the event carries the row index |
| MatrixHandlers.RowNumberClickFindsWrapper | sbo-components.js:1156-1367 | the wrapper lookup finds the matrix's own wrapper |
| MatrixHandlers.MountedLacksPlainMatrixClass | sbo-components.js:1133-1254 | no element of a rendered matrix carries the bare `sbo-matrix` class |
| MatrixHandlers.SelectOnlyKeepsLacking | sbo-components.js:1372-1375 | selecting a row adds no `sbo-matrix` class |
| MatrixHandlers.MatrixPage.HandleAddRow | sbo-components.js:1386-1398 | the add event is sent exactly when the matrix exists |
| MatrixHandlers.MatrixPage.HandleDeleteRow | sbo-components.js:1400-1418 | no matrix: nothing; no selected row: the warning alert; otherwise the delete event |
| MatrixHandlers.DeleteOutcomeIff | sbo-components.js:1400-1418 | delete is sent exactly when the first matrix with that id has a selected row, and nothing happens exactly when no matrix has the id |
| Tabs.CreateSBOTabControl | sbo-components.js:823-880 | one header and one pane per tab, in order, with its id, pane, active state and disabled flag |
| Tabs.InitialActiveIsUnique | sbo-components.js:826-860 | with distinct tab ids, exactly one header and the pane at its position start active |
| Tabs.InitialDefaults | sbo-components.js:826-843 | no activeTabId makes the first tab active; a tab without a pane gets pane "1" |
| Tabs.TabPage.HandleTabClickAsWritten | sbo-components.js:882-916 | as written: a disabled header or missing control changes nothing; otherwise the control becomes ClickedAsWritten of its old state, exactly the clicked header is active, the element the lookup finds (a header) gets the pane's active class, no pane is active, and the event carries the tab id and pane |
| Tabs.TabPage.MarkClickedAsWritten | sbo-components.js:891-912 | the clear-mark-lookup steps leave the control as ClickedAsWritten of its old state, and every other control unchanged |
| Tabs.ClickStepsAsWritten | sbo-components.js:891-912 | clearing, marking the clicked header and marking the looked-up element give ClickedAsWritten, whether the lookup finds a header, a pane or nothing |
| Tabs.ClickedAsWrittenMarks | sbo-components.js:891-912 | after the click as written every attribute is kept, so the lookup is unchanged; header j is active exactly when j is the clicked one; and when the header has a tab id, the pane class lands on a header at or before it and no pane is active |
| Tabs.ClickedAsWrittenIdempotent | sbo-components.js:882-916 | a second click on the same header leaves the control as the first click did |
| Tabs.TargetAsWrittenIsHeader | sbo-components.js:903 | the as-written lookup lands on a header, never on a pane |
| Tabs.TabPage.HandleTabClick | sbo-components.js:882-916 | corrected: a disabled header or missing control changes nothing; otherwise exactly the clicked header and the pane with its tab id are active, and the event carries the tab id and pane |
| Tabs.TargetPaneMatchesHeader | sbo-components.js:823-903 | with distinct tab ids, the pane lookup finds the pane at the clicked header's position |
| Tabs.TabPage.ClearActive | sbo-components.js:891-897 | every header and pane of the control loses its active class |
| ButtonCombo.CreateSBOButtonCombo | sbo-components.js:1475-1550 | one entry and one hidden option per valid value, marked where it is the selected value; the select is named after the data source, else the id; the data-source attribute is present only for a non-empty data source |
| ButtonCombo.InitialSelectedIndex | sbo-components.js:1536-1542 | the hidden select starts at its last `selected` option, else the first, else -1 |
| ButtonCombo.IndexOfValue | sbo-components.js:1617 | setting the select's value selects the first option with that value, or -1 |
| ButtonCombo.SelectValueRoundTrip | sbo-components.js:1558-1617 | after a choice the select reads back the chosen value when it is one of the options, else '' |
| ButtonCombo.MarkChoiceSelectsOne | sbo-components.js:1596-1604 | after a choice at most one entry is marked, it carries the chosen value, and one is marked when any entry carries it |
| ButtonCombo.MountedReportsSelectedValue | sbo-components.js:1475-1571 | a freshly rendered combo reports its selected value on a main click |
| ButtonCombo.ComboPage.HandleMainClick | sbo-components.js:1555-1571 | the event carries the select's value and the text of its selected option, '' when there is none |
| ButtonCombo.ComboPage.Toggle | sbo-components.js:1574-1587 | every other dropdown closes and this one flips, so at most one is open |
| ButtonCombo.MountedDataSource | sbo-components.js:1491-1613 | a choice reports the rendered data source when it is non-empty, and null for an absent or empty one |
| ButtonCombo.ComboPage.SelectOption | sbo-components.js:1590-1634 | the chosen entry is marked, the select takes the value, the dropdown closes, and the event carries id, value, description and data source |
| ButtonCombo.ComboPage.DocumentClick | sbo-components.js:1637-1643 | a click outside every combo closes all dropdowns; one inside changes nothing |
| LinkedButton.ActionForIff | sbo-components.js:194-211 | the form opens exactly when the value has a non-blank character, else Choose From List |
| LinkedButton.ClickEventAction | sbo-components.js:176-215 | a reported click names the form action exactly when the trimmed value is non-empty, and that value has no surrounding blanks |
| LinkedButton.LinkedButtonPage.HandleClick | sbo-components.js:176-215 | disabled, unlinked or dangling buttons report nothing; otherwise the trimmed value, linked object and action |
| LinkedButton.LinkedButtonPage.UpdateLinkedButtonState | sbo-components.js:261-276 | auto-activating buttons linked to the input become disabled, with the class, exactly when the input is blank; other elements keep their state |
| LinkedButton.LinkedButtonPage.SyncButtons | sbo-components.js:263-275 | every button linked to the id that auto-activates is synced with the value test; every other element keeps its state |
| LinkedButton.SyncedForInSync | sbo-components.js:267-273 | after the sync, an auto-activating button of the input is disabled, with the class, exactly when the input is blank |
| LinkedButton.SyncedStable | sbo-components.js:264-274 | syncing keeps link target, linked object and auto-activate flag, and a second sync changes nothing |
| LinkedButton.SyncedClick | sbo-components.js:176-276 | after a sync a click reports an event exactly when the input has a value, and it opens the form |
| LinkedButton.FindInput | sbo-components.js:187 | the lookup finds the first input with the id, or none |
| LinkedButton.CreateSBOLinkedButton | sbo-components.js:142-174 | the button is disabled, by attribute and class, exactly as asked; it links to its input and names its linked object only when those are given; it auto-activates exactly as asked |
| LinkedButton.ComboButtonStaysDisabled | sbo-components.js:297-316 | as written, the linked edit-text combo's button stays disabled whatever is typed, so a click never opens the form |
| LinkedButton.ComboButtonFollowsInput | sbo-components.js:261-316 | with the combo's handlers wired, its button is enabled exactly while the input holds a non-blank value, and a click then opens the linked form with the trimmed value |
| OptionButton.RadioPage.HandleChange | sbo-components.js:794-816 | every container of the radio's group shows the selection exactly when its radio is checked; other groups keep theirs; the event carries value, name and id |
| OptionButton.SyncedRadioShows | sbo-components.js:798-800 | syncing keeps a radio's identity and checked state, shows it selected exactly when checked and contained, and is idempotent |
| OptionButton.OneCheckedOneShown | sbo-components.js:794-801 | when exactly one radio of the group is checked, exactly its container shows the selection |
| Window.CreateWindowControls | sbo-components.js:1760-1810 | one button per enabled control and no other: minimize first, then maximize in its restore form exactly when the window is maximized, then close last |
| Window.MaximizeButton | sbo-components.js:1782-1784 | the button has the restore class and title exactly when the window is maximized, and the maximize class otherwise |
| Window.MountedConsistent | sbo-components.js:1706-1810 | a rendered window is consistent, not minimized, shown, and maximized exactly as asked |
| Window.MaximizeToggleFlips | sbo-components.js:1844-1884 | maximize flips the state, keeps the wrapper class and button consistent, and undoes itself |
| Window.MinimizeRoundTrip | sbo-components.js:1812-1842 | minimize hides the window and a second one shows it as before ("flex" when unset), leaving maximize alone |
| Window.WindowPage.HandleMinimize | sbo-components.js:1812-1842 | the minimized state flips, the window is hidden or shown again, and the event carries the new state |
| Window.WindowPage.HandleMaximize | sbo-components.js:1844-1884 | the maximized state flips with the class and button, and the event carries it |
| Window.WindowPage.HandleClose | sbo-components.js:1886-1904 | the close event is sent; unless a listener cancels it, the window is removed |
| Window.CloseRemovesWindow | sbo-components.js:1886-1904 | when no other window shares the id, closing it leaves no window with that id, so a second close finds none, and the page holds one window fewer |
| EditMode.SBOEditMode.constructor | sbo-components.js:2239-2244 | the editor starts inactive, with nothing selected, a one-pixel grid and no stored position, and satisfies the selection invariant when no component is marked |
| EditMode.SBOEditMode.Toggle | sbo-components.js:2284-2293 | the mode flips; on it activates, off it deactivates; the selection invariant is kept |
| EditMode.SBOEditMode.Activate | sbo-components.js:2297-2309 | the body is marked, the panel shown, and every eligible component becomes editable and listens |
| EditMode.MadeEditableIdempotent | sbo-components.js:2393-2433 | making a component editable twice is once; an ineligible one (no selector, or an id starting 'btn') is untouched; the selected class is not touched |
| EditMode.SBOEditMode.Deactivate | sbo-components.js:2314-2446 | every editable component loses both editing classes and its offsets, and the selection is dropped; stored positions stay |
| EditMode.UneditedKeepsListener | sbo-components.js:2438-2446 | deactivation keeps the click listener and the id, and zeroes an editable component's offsets |
| EditMode.SBOEditMode.HandleElementClick | sbo-components.js:2451-2456 | only a listening component reacts, only while active, by becoming the selection; the mode, the body and panel flags, the grid size and the stored positions are kept |
| EditMode.SBOEditMode.SelectElement | sbo-components.js:2461-2511 | the old selection is dropped, the clicked component is the one selected, and the indicator shows its offsets |
| EditMode.SBOEditMode.DeselectElement | sbo-components.js:2478-2484 | the selected component loses its mark, the indicator goes, nothing is selected |
| EditMode.DeselectedClears | sbo-components.js:2478-2484 | after deselecting, no component carries the selected class |
| EditMode.SelectedMarksOne | sbo-components.js:2461-2473 | after selecting k, exactly k carries the selected class and no other part of any component changes |
| EditMode.SameMarksKeepValid | sbo-components.js:2554-2692 | changes that keep every selected mark keep the selection invariant |
| EditMode.SBOEditMode.KeyDown | sbo-components.js:2524-2549 | nothing unless active with a selection; Escape deselects and removes the indicator; Ctrl+s saves; an arrow moves the component by 10 with Shift or by the grid size and the indicator shows the new offsets; other keys change nothing; the mode, the body and panel flags and the grid size are kept |
| EditMode.SBOEditMode.MoveElement | sbo-components.js:2554-2600 | the selected component's offsets move by the step, are written back as px styles, update the indicator, and are stored under its id or a generated one |
| EditMode.MovedDirections | sbo-components.js:2564-2577 | Left and Right move only the horizontal offset, Up and Down only the vertical one, other keys nothing |
| EditMode.MovedOpposites | sbo-components.js:2564-2577 | opposite moves by the same step cancel |
| EditMode.MovedShowsStored | sbo-components.js:2558-2589 | the stored offsets are the ones the component shows, and its written style texts parse back to them |
| EditMode.MoveThereAndBack | sbo-components.js:2554-2589 | two opposite moves restore the offsets the component showed |
| EditMode.ParsedOffsetReadsText | sbo-components.js:2507-2559 | reading a style with `parseInt`, falling back to 0, gives 0 for an unset style and n for a `${n}px` style |
| EditMode.MoveKey | sbo-components.js:2585-2600 | the key a move is stored under is never empty |
| EditMode.SBOEditMode.ResetPositions | sbo-components.js:2676-2692 | unless declined, every editable component loses its offsets, stored positions are cleared, and the user is told; the mode, selection, indicator, grid size and body and panel flags are kept |
| Text.TrimNonEmptyIff | sbo-components.js:267 | a value trims to something non-empty exactly when it has a non-blank character |
| Text.ParseIntRoundTrip | sbo-components.js:2558-2580 | `parseInt` reads back a written integer followed by any non-digit suffix |
| Text.ParseInt | sbo-components.js:1117-1263 | `parseInt` gives NaN exactly when no digit follows the leading blanks and optional sign |
| Text.TrimStart | sbo-components.js:194-267 | the leading part trim removes is all white space, and what is left does not start with white space |
| Text.TrimEnd | sbo-components.js:194-267 | the trailing part trim removes is all white space, and what is left does not end with white space |
| Text.NatToDecimalInjective | sbo-components.js:1233 | distinct numbers are written as distinct decimal texts |
| Dom.FirstWithAttr | sbo-components.js:903 | a query by attribute finds the first element carrying it, or none |
| Dom.FirstWithClass | sbo-components.js:1367 | a query by class finds the first element carrying it, or none |
| MatrixHandlers.FindMatrix | sbo-components.js:1315-1401 | `getElementById` finds the first matrix with the id, or reports that none has it |
| MatrixHandlers.Closest | sbo-components.js:1367 | `closest` finds the nearest ancestor with the class, or reports that none has it |
| Tabs.FindControl | sbo-components.js:885 | `getElementById` finds the first tab control with the id, or none |
| ButtonCombo.FindCombo | sbo-components.js:1556-1591 | `getElementById` finds the first combo with the id, or none |
| Window.FindWindow | sbo-components.js:1813-1887 | `getElementById` finds the first window with the id, or none |
| GridHandlers.SortScenario | sbo-components.js:1078-1106 | three clicks on one header report asc, desc and none, and a click on another header then starts it at asc |
| Tabs.TabScenario | sbo-components.js:882-916 | a click on the second tab reports its id and pane in both versions; as written no pane becomes active, while in the corrected version the second pane does |
| MatrixHandlers.SelectThenDelete | sbo-components.js:1366-1418 | with the corrected lookup, a row-number click followed by delete reports the row and then the deletion, without a warning |
| ButtonCombo.ChooseThenPress | sbo-components.js:1555-1634 | choosing an entry and pressing the main button reports the choice and then that same value |
| EditMode.NudgeScenario | sbo-components.js:2451-2589 | in edit mode, selecting a component, then Shift+ArrowRight and ArrowLeft, stores its net offset |

## Left out

- Markup text: builders return structured views (cells, classes, attributes), not HTML strings. Escaping and whitespace are not modelled.
- Number formatting: `toLocaleString` and date formatting are parameters (`Js.Host`). JavaScript numbers are integers only, so floating point and NaN values are not modelled.
- `parseInt`: the hexadecimal prefix is not modelled.
- Ids made from `Date.now()` and `Math.random()` are a parameter (`freshSuffix` in EditMode.SBOEditMode.MoveElement).
- Dialogs: the `confirm` answer and a listener's cancellation of close are parameters, and `alert` is recorded in the event log.
- Logging: `console.log` is dropped. So is `updateDataSource`, which only logs.
- `window[onChangeHandler]` calls and other calls into page code are not modelled.
- The `setTimeout` Choose From List opener and `openLinkedObjectForm` are not modelled.
- Browser scroll clamping in matrix scrolling is not modelled.
- Duplicate element ids: only the first element with an id is found, as in `getElementById`.
- SBOEditMode `init`, `createToggleButton`, `createGridOverlay`, `createControlPanel` and `removeControlPanel` are not modelled as markup: the model keeps only the body-active flag and whether the panel is shown. The toggle button's label is not modelled.
- SBOEditMode `saveLayout`, `loadLayout` and `exportHTML` are not modelled, because they go through localStorage, files and alerts. Ctrl+s is only reported by EditMode.SBOEditMode.KeyDown.
- EditMode.SBOEditMode.Activate: does not model `style.position = 'relative'` or the `originalLeft`/`originalTop` dataset, because these come from layout geometry.
- EditMode.SBOEditMode.Activate: models one pass over the components, where the source makes one pass per selector. Repeating the class add is harmless, and repeated listeners all call the same idempotent selection.
- EditMode.SBOEditMode.Deactivate: does not clear `style.position`.
- EditMode.Style: styles are unset or a whole number of pixels, the only forms the editor writes. Arbitrary style text from elsewhere is not modelled.
- EditMode.SBOEditMode.HandleElementClick: `stopPropagation` is not modelled. Each click is delivered to one component.
- The ancestor chain of a matrix row-number cell stops at the wrapper. The page around a matrix is assumed to carry no `sbo-matrix` class.
- Tabs.Tab: an absent pane is 0, which renders as "1".
- ButtonCombo.CreateSBOButtonCombo: an item's `value` and `description` are strings. A missing field is modelled as "", but the source interpolates `undefined` and renders the text "undefined". A main click on such an item then reports "undefined" as its text, where the model reports "".
- Tabs.CreateSBOTabControl: a tab's `id` and `caption` are strings. A missing id is modelled as "", but the source renders `data-tab-id="undefined"`.
- GridRender.CreateGridHeaderRow: a column's `id` and `title` are strings. A missing one is modelled as "", but the source renders `data-column-id="undefined"` and the header text "undefined" (lines 992 and 996).
- MatrixRender.CreateMatrixHeaderRow: the same holds for matrix columns. A missing `id` or `title` renders "undefined" in the header (lines 1201 and 1204), and a missing `id` puts "undefined" into every cell id (line 1233).
- Fields.ComboOptionList: a missing option field is modelled as "". Through the `text || description || value` chain this gives the same displayed text as `undefined`, except when all three are missing.
- The other components of the library (edit texts, check boxes, picture boxes, form windows, data sources) are not part of this model. Of createSBOEditText, only the handlers it wires are used, to show the linked edit-text combo finding.

## Findings

| source | as written | input that shows it | evidently intended | confidence | as-written member | corrected member |
|---|---|---|---|---|---|---|
| sbo-components.js:1367 | the row-number click looks up `closest('.sbo-matrix')`, but a rendered matrix's wrapper carries `sbo-matrix-wrapper` (line 1156), so the lookup gives null and the next line throws | any click on a row-number cell of a matrix made by createSBOMatrix | look up the wrapper, then select exactly the clicked row | not executed | MatrixHandlers.RowNumberClickFindsNoMatrix | MatrixHandlers.RowNumberClickFindsWrapper |
| sbo-components.js:903 | the pane lookup `querySelector('[data-tab-id=…]')` searches the whole control, and the header (which carries the same `data-tab-id`) comes first, so the header gets the pane's active class and no pane is shown | a click on any enabled tab header of a rendered tab control | confine the lookup to the panes, so the pane with the clicked tab id becomes active | not executed | Tabs.TargetAsWrittenIsHeader | Tabs.TargetPaneMatchesHeader |
| sbo-components.js:1174-1177 | createSBOMatrix renders only the scroll buttons; createMatrixControlButtons (line 1334), which adds the add and delete buttons, is never called | createSBOMatrix with allowAddRow true | render the add and delete buttons as the options say | not executed | MatrixRender.RenderedControlsLackAddDelete | MatrixRender.IntendedControlsOffer |
| sbo-components.js:303-304 | createLinkedEditTextCombo passes `onKeyup` and `onChange` to createSBOEditText, which does not read them (53-68) and wires only its own blur, focus and change handlers (99-101), so updateLinkedButtonState is never attached | a combo built by createLinkedEditTextCombo, then any non-blank text typed into its input: the button, created disabled at line 310, stays disabled | run updateLinkedButtonState on every edit of the input, so the button is enabled exactly while the input has a value | not executed | LinkedButton.ComboButtonStaysDisabled | LinkedButton.ComboButtonFollowsInput |
