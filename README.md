# BERTviz Explorer: the connector engine and the cell grid

This project models the core of BERTviz Explorer, a single-page attention map viewer. The user types a
sentence. The viewer splits it into tokens and builds a placeholder attention tensor: `NUM_LAYERS` (4)
layers, each a |tokens| x |tokens| matrix of weights. Each layer is drawn as a heatmap grid. Every cell
registers its element under the key `l<layer>-r<row>-c<col>`, shows the tag filed under that key, and
reports its own (layer, row, col) when clicked. When a cell is selected, the connector pass draws a line
from the centre of that cell to each of the `TOP_K` (3) heaviest columns of the same row in the next
layer, as long as that target cell is mounted.

Modules:

- `Types` (`types.dfy`): cells, boxes, lines, tags, element handles, the analysis result and its
  well-formedness.
- `CellKey` (`cell_key.dfy`): the decimal numeral and the key scheme. The key is proved injective.
- `TopKSelector` (`top_k.dfy`): the top-K column ranking. `Array.prototype.sort` is modelled as a stable
  insertion sort on weight alone; the sort is also written as an in-place array method. The selection is
  proved to be a top-K by weight, with ties broken by ascending column index.
- `Connectors` (`connectors.dfy`): the connector pass as a pure function of the state it reads. Its result
  either keeps the current lines or replaces them.
- `AttentionLayer` (`attention_layer.dfy`): one layer's grid of cell props, and its enumeration and wiring.
- `BertVisualizer` (`visualizer.dfy`): the tokenizer, the placeholder data source, and the component
  state as a class whose methods are the state handlers and the connector pass.

Two early returns of the connector pass leave the line list as it was (`Connectors.Update.Keep`):

- there is no container box (`src/components/bert-visualizer.tsx:69`);
- the source cell has no registered element, or a null one (`src/components/bert-visualizer.tsx:79`).

The container test comes before the last-layer test (line 71). So a selection in the last layer with no
container keeps the old lines rather than clearing them.

Environment:

- Element handles are opaque values (`Types.Element`).
- `getBoundingClientRect` is the parameter `box: Element -> Rect` of the connector pass.
- The container's box is an `Option<Rect>` parameter.
- `Math.random` is the parameter `draw` of `GenerateMockData` and `Visualizer.Analyze`.
- The host calls `Visualizer.Analyze` once at mount. It calls `Visualizer.CalculateLines` after every
  change of selection or result, and on window resize.

## Model

| member | source | states |
|---|---|---|
| Types.Lookup | src/components/attention-layer.tsx:64 | no contract beyond `tags[key]` itself; `AttentionLayer.LayerCellsSpec` states that every cell shows the tag filed under its own key |
| CellKey.NatToString | src/components/attention-layer.tsx:52 | the numeral of an index is non-empty, made only of decimal digits, and starts with `0` only for zero |
| CellKey.ParseNatToString | src/components/attention-layer.tsx:52 | reading the numeral of `n` back as a decimal number gives `n` |
| CellKey.NatToStringInjective | src/components/attention-layer.tsx:52 | two indices have the same numeral exactly when they are equal |
| CellKey.Part | src/components/attention-layer.tsx:52 | a key component never contains the separator `-` |
| CellKey.PartInjective | src/components/attention-layer.tsx:52 | two components with the same letter are equal exactly when their indices are |
| CellKey.SplitAtSeparator | src/components/attention-layer.tsx:52 | joining two dash-free heads with `-` can be split back in one way only |
| CellKey.KeyInjective | src/components/attention-layer.tsx:52 | two cell keys are equal if and only if their layer, row and column are all equal |
| CellKey.Key | src/components/attention-layer.tsx:52 | no contract of its own; `CellKey.KeyInjective` states that the key identifies its (layer, row, col), both ways |
| CellKey.CellId | src/components/bert-visualizer.tsx:77 | no contract of its own; `CellKey.CellIdInjective` states that the source key identifies the selected cell |
| CellKey.CellIdInjective | src/components/bert-visualizer.tsx:77 | the source key of two selections is the same exactly when they are the same cell |
| TopKSelector.Pairs | src/components/bert-visualizer.tsx:87 | no contract beyond the pairing itself; `TopKSelector.SortedPairsAreThePairs` and `TopKSelector.TopKSpec` state what the ranking makes of it |
| TopKSelector.InsertByWeight | src/components/bert-visualizer.tsx:88 | no contract of its own; `TopKSelector.InsertAt`, `TopKSelector.InsertPermutes` and `TopKSelector.InsertSorted` state where the element lands, that nothing is lost, and that the ranking order is kept |
| TopKSelector.SortByWeight | src/components/bert-visualizer.tsx:88 | no contract of its own; `TopKSelector.SortPermutes` states it is a permutation and `TopKSelector.SortSorted` that it is stable by weight |
| TopKSelector.InsertPermutes | src/components/bert-visualizer.tsx:88 | inserting an element adds exactly that element to the multiset |
| TopKSelector.SortPermutes | src/components/bert-visualizer.tsx:88 | the sort is a permutation of its input |
| TopKSelector.InsertSorted | src/components/bert-visualizer.tsx:88 | inserting an element with a larger index than all others keeps the list descending by weight, ties by ascending index |
| TopKSelector.SortSorted | src/components/bert-visualizer.tsx:88 | sorting pairs given in index order yields descending weight, equal weights in ascending index |
| TopKSelector.SortedPairsAreThePairs | src/components/bert-visualizer.tsx:87-88 | the sorted pairs are exactly the row's (weight, index) pairs, each column once, in ranking order |
| TopKSelector.Take | src/components/bert-visualizer.tsx:89 | no contract beyond `slice(0, k)` itself; `TopKSelector.TopKSpec` states the length min(k, row length) and that the cut keeps the best-ranked columns |
| TopKSelector.Indices | src/components/bert-visualizer.tsx:90 | no contract beyond `map(d => d.index)` itself; `TopKSelector.TopKSpec` states which columns come out |
| TopKSelector.TopK | src/components/bert-visualizer.tsx:86-90 | no contract of its own; `TopKSelector.TopKSpec` states it |
| TopKSelector.TopKSpec | src/components/bert-visualizer.tsx:86-90 | the selection has min(k, row length) in-range, distinct columns in ranking order (heavier first, ties by lower index); every selected column outranks every column left out |
| TopKSelector.InsertAt | src/components/bert-visualizer.tsx:88 | inserting lands the element just after the last element of at least its weight, with every lighter element after it |
| TopKSelector.InsertInPlace | src/components/bert-visualizer.tsx:88 | one pass of the in-place sort: the first i+1 slots become the insertion of slot i into the sorted prefix, the rest is unchanged |
| TopKSelector.SortInPlace | src/components/bert-visualizer.tsx:88 | sorting the array in place leaves exactly the stable weight sort of its old contents |
| TopKSelector.TopKIndices | src/components/bert-visualizer.tsx:86-90 | the map/sort/slice/map pipeline returns exactly the top-K selection |
| TopKSelector.TopKTieExample | src/components/bert-visualizer.tsx:86-90 | with weights 0.2, 0.9, 0.9, 0.1 and k = 2, the tied columns 1 and 2 are picked in that order |
| TopKSelector.TopKTwoColumns | src/components/bert-visualizer.tsx:86-90 | with weights 0.3, 0.8 and k = 3, both columns are picked, column 1 first |
| TopKSelector.TopKEmptyCases | src/components/bert-visualizer.tsx:86-90 | an empty row, or k = 0, selects nothing |
| Connectors.Geometry | src/components/bert-visualizer.tsx:78-79 | no contract beyond the registry reading itself; `Connectors.BuildLinesSpec` states that a target gets a line exactly when it has a box, and `BertVisualizer.Visualizer.CalculateLines` that a missing or null source keeps the lines |
| Connectors.Centre | src/components/bert-visualizer.tsx:82-83 | no contract of its own; `Connectors.BuildLinesSpec` states that every line starts at the source centre and ends at its target centre, both by this formula |
| Connectors.Connector | src/components/bert-visualizer.tsx:92-100 | no contract of its own; `Connectors.TargetLinesAreMounted` states the line of each mounted target |
| Connectors.TargetLines | src/components/bert-visualizer.tsx:92-102 | no contract of its own; `Connectors.TargetLinesAreMounted` states it |
| Connectors.Mounted | src/components/bert-visualizer.tsx:92-102 | the columns that survive the null filter; `Connectors.MountedMembers` and `Connectors.MountedRanked` state which they are and in what order |
| Connectors.BuildLines | src/components/bert-visualizer.tsx:81-102 | no contract of its own; `Connectors.BuildLinesSpec` states it |
| Connectors.Recompute | src/components/bert-visualizer.tsx:62-105 | the lines are kept exactly when there is a selection and a result and either no container, or a source below the last layer with no mounted element; they are cleared without a selection or a result, and for a source in the last layer; otherwise they are `Connectors.BuildLines` |
| Connectors.RenderedSelectionHasWeightRow | src/components/bert-visualizer.tsx:85 | for a selection of a rendered cell of a well-formed result, the weight row the pass reads exists |
| Connectors.MountedMembers | src/components/bert-visualizer.tsx:92-102 | a column survives the null filter exactly when it is a target and its cell has a box; no column is added |
| Connectors.MountedRanked | src/components/bert-visualizer.tsx:92-102 | the filter keeps the ranking order of the surviving columns |
| Connectors.TargetLinesAreMounted | src/components/bert-visualizer.tsx:92-102 | one line per mounted target, in order, keyed `sourceId-targetId`, from the source point to the target's centre |
| Connectors.LineKeysDistinct | src/components/bert-visualizer.tsx:99 | lines to different target columns have different keys |
| Connectors.BuildLinesSpec | src/components/bert-visualizer.tsx:81-102 | at most TOP_K lines; one for each top-ranked column whose cell is mounted, and none for the others; in ranking order; keyed `sourceId-targetId` with distinct keys; from the source's centre to each target's centre |
| Connectors.RecomputeIdempotent | src/components/bert-visualizer.tsx:62-105 | a pass does not read the lines it replaces: applying its outcome a second time changes nothing. With `BertVisualizer.Visualizer.CalculateLines` leaving result, selection and registry unchanged, a second pass on the same boxes leaves the lines as they are |
| AttentionLayer.IsSelected | src/components/attention-layer.tsx:53 | a cell is highlighted if and only if the selection is that very (layer, row, col) |
| AttentionLayer.View | src/components/attention-layer.tsx:52-67 | no contract of its own; `AttentionLayer.LayerCellsSpec` states each cell's wiring |
| AttentionLayer.RowCells | src/components/attention-layer.tsx:51-70 | no contract of its own; `AttentionLayer.RowsSpec` states it |
| AttentionLayer.Rows | src/components/attention-layer.tsx:46-72 | no contract of its own; `AttentionLayer.RowsSpec` states it |
| AttentionLayer.LayerCells | src/components/attention-layer.tsx:46-72 | no contract of its own; `AttentionLayer.LayerCellsSpec` states it |
| AttentionLayer.RowsSpec | src/components/attention-layer.tsx:46-67 | the cells of the first n rows form the grid of those rows: wired by their own position, row-major, every position present |
| AttentionLayer.LayerCellsSpec | src/components/attention-layer.tsx:46-67 | a layer's cells come in row-major order and cover every (row, column); each cell's key, ref key and tag key are its own `l-r-c` key, it shows its weight and the tag filed under its key, and it reports its own position on click |
| AttentionLayer.SingleSelection | src/components/attention-layer.tsx:53 | across all layers' grids, at most one cell is highlighted |
| AttentionLayer.ClicksStayInGrid | src/components/attention-layer.tsx:67 | in a well-formed result every cell reports a position inside the grid |
| BertVisualizer.IsSpace | src/components/bert-visualizer.tsx:17 | no contract of its own: it is the set of characters `\s` matches; `BertVisualizer.Tokenize` and `BertVisualizer.TokenizeJoin` state what splitting on it yields |
| BertVisualizer.WordLength | src/components/bert-visualizer.tsx:17 | the first word's length: no white space before it, and white space or the end right after it |
| BertVisualizer.Tokenize | src/components/bert-visualizer.tsx:17 | every token is non-empty and contains no white space |
| BertVisualizer.WordLengthOfWord | src/components/bert-visualizer.tsx:17 | a word followed by white space or the end is read as one whole word |
| BertVisualizer.TokenizeWord | src/components/bert-visualizer.tsx:17 | a word followed by white space or the end becomes the next token, and tokenizing continues after it |
| BertVisualizer.TokenizeJoin | src/components/bert-visualizer.tsx:17 | splitting words joined by single spaces gives the words back |
| BertVisualizer.GenerateMockData | src/components/bert-visualizer.tsx:16-24 | the tokens of the sentence, NUM_LAYERS layers, each |tokens| x |tokens|, entry (l, i, j) drawn from the generator |
| BertVisualizer.Visualizer.constructor | src/components/bert-visualizer.tsx:27-35 | the initial sentence, with no result, no tags, no selection, no lines and no registered elements |
| BertVisualizer.Visualizer.EditSentence | src/components/bert-visualizer.tsx:141 | the sentence becomes the edited text; nothing else changes, and the validity invariant holds |
| BertVisualizer.Visualizer.SetCellRef | src/components/bert-visualizer.tsx:37-39 | the registry maps the key to the new element or to null; all other keys are unchanged |
| BertVisualizer.Visualizer.Analyze | src/components/bert-visualizer.tsx:41-47 | a fresh well-formed result for the current sentence; tags, selection and lines are cleared; sentence and registry are unchanged |
| BertVisualizer.Visualizer.TagUpdate | src/components/bert-visualizer.tsx:54-55 | the key's tag becomes the new name; every other key's tag is unchanged |
| BertVisualizer.Visualizer.Click | src/components/bert-visualizer.tsx:114-116 | the clicked cell becomes the selection, whether or not it was already selected; the selection stays a cell of the current grid |
| BertVisualizer.Visualizer.CalculateLines | src/components/bert-visualizer.tsx:62-105 | the lines become the outcome of `Connectors.Recompute` on the current state: cleared without a selection or result, or in the last layer; kept when the container or the source element is missing; otherwise the connectors of `Connectors.BuildLinesSpec`. Selection, tags, result and registry are unchanged, and the validity invariant holds |

## Left out

- Rendering is left out: the markup, the styling, the tabs, the SVG drawing and the heatmap colours.
  The cell props of one layer are modelled instead (`AttentionLayer.LayerCells`).
- Only the tabs' default of unmounting hidden panels is modelled. It appears through the registry: an
  unmounted cell's reference is null, so it has no box and gets no line. The mount and unmount calls
  themselves come from the host, through `Visualizer.SetCellRef`.
- The editing and display of a tag inside one heatmap cell is not part of this model
  (`src/components/heatmap-cell.tsx`). Only the `onTagUpdate(key, name)` it reports is modelled, as
  `Visualizer.TagUpdate`.
- The toast shown after a tag edit is a notification side effect and is left out.
- Effect scheduling and the resize listener are left out, because they belong to the host. This
  covers the mount effect at lines 49-52 and the recompute effect at lines 108-112. The host is
  taken to call `Analyze` and `CalculateLines` at those moments.
- Random numbers are left out: `Math.random` is the `draw` parameter. Its range [0, 1) is not
  assumed anywhere.
- JavaScript numbers are modelled as mathematical reals, so rounding in the centre arithmetic is not
  modelled.
- `CellKey.NatToString`: does not model JavaScript's exponent notation for integers of 1e21 and above.
  Grid indices never come near that size.
- `BertVisualizer.IsSpace`: the `\s` class is written out as a fixed set of code points. Characters
  beyond it that a later Unicode version adds are not covered.
- `BertVisualizer.Visualizer.Click`: requires the clicked cell to be in the grid of the current result.
  The handler itself accepts any triple, but its only callers are rendered cells, which report their own
  position (`AttentionLayer.ClicksStayInGrid`). This keeps the selection inside the grid, so the weight
  row the connector pass reads at line 85 always exists (`Connectors.RenderedSelectionHasWeightRow`).
- `AttentionLayer.Rows`, `AttentionLayer.LayerCells`: require a weight row for every token. On a
  shorter tensor the grid throws a TypeError at `src/components/attention-layer.tsx:51`, which the model
  does not represent. Every well-formed result meets the requirement.
- The Python analysis backend and the page shell are not part of this model (`app.py`,
  `src/app/page.tsx`). The visualizer component never calls the backend.
