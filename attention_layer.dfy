/**
 * One layer's heatmap grid: one cell per (row, column), rows over the
 * tokens and columns over that row's weights, in row-major order. Each
 * cell carries the key it registers its element under, the key it is
 * tagged under, the tag it shows, whether it is highlighted as selected,
 * and the cell it reports when clicked.
 */
module AttentionLayer {
  import opened Types
  import opened CellKey

  /** The props one heatmap cell is rendered with. */
  datatype CellView = CellView(
    key: string,          // the list key of the cell
    refKey: string,       // the key `setCellRef` files its element under
    cellId: string,       // the key a tag edit is reported with
    layer: nat,
    row: nat,
    col: nat,
    weight: real,
    tag: Option<Tag>,
    isSelected: bool,
    onClick: Cell)        // what a click on the cell reports

  /** The highlight test: a selection marks the cell whose three indices all match. */
  function IsSelected(selected: Option<Cell>, layer: nat, row: nat, col: nat): (b: bool)
    ensures b <==> selected == Some(Cell(layer, row, col))
  {
    selected.Some? && selected.value.layer == layer && selected.value.row == row && selected.value.col == col
  }

  function View(layer: nat, row: nat, col: nat, weight: real, tags: Tags, selected: Option<Cell>): CellView
  {
    var key := Key(layer, row, col);
    CellView(key, key, key, layer, row, col, weight, Lookup(tags, key),
             IsSelected(selected, layer, row, col), Cell(layer, row, col))
  }

  /** `attention[rowIndex].map((weight, colIndex) => ...)` */
  function RowCells(layer: nat, row: nat, weights: seq<real>, tags: Tags, selected: Option<Cell>): seq<CellView>
  {
    seq(|weights|, c requires 0 <= c < |weights| => View(layer, row, c, weights[c], tags, selected))
  }

  /** The cells of the first `rows` rows, row after row. */
  function Rows(layer: nat, rows: nat, attention: Matrix, tags: Tags, selected: Option<Cell>): seq<CellView>
    requires rows <= |attention|
  {
    if rows == 0 then []
    else Rows(layer, rows - 1, attention, tags, selected) + RowCells(layer, rows - 1, attention[rows - 1], tags, selected)
  }

  /** `tokens.map((token, rowIndex) => ...)`: the heatmap cells of one layer. */
  function LayerCells(layer: nat, tokens: seq<string>, attention: Matrix, tags: Tags, selected: Option<Cell>): seq<CellView>
    requires |tokens| <= |attention|
  {
    Rows(layer, |tokens|, attention, tags, selected)
  }

  /** The wiring of one cell is consistent with its own position. */
  predicate WiredTo(v: CellView, layer: nat, attention: Matrix, tags: Tags, selected: Option<Cell>)
  {
    && v.layer == layer
    && v.row < |attention| && v.col < |attention[v.row]|
    && v.weight == attention[v.row][v.col]
    && v.key == Key(layer, v.row, v.col) && v.refKey == v.key && v.cellId == v.key
    && v.tag == Lookup(tags, v.key)
    && v.isSelected == (selected == Some(Cell(layer, v.row, v.col)))
    && v.onClick == Cell(layer, v.row, v.col)
  }

  /** Some cell of `vs` sits at (row, col). */
  predicate HasCellAt(vs: seq<CellView>, row: nat, col: nat)
  {
    exists i :: 0 <= i < |vs| && vs[i].row == row && vs[i].col == col
  }

  /** Every cell lies in the first `rows` rows and is wired by its own position. */
  predicate Wired(vs: seq<CellView>, layer: nat, rows: nat, attention: Matrix, tags: Tags, selected: Option<Cell>)
  {
    forall i :: 0 <= i < |vs| ==> vs[i].row < rows && WiredTo(vs[i], layer, attention, tags, selected)
  }

  /** The cells come in row-major order. */
  predicate RowMajor(vs: seq<CellView>)
  {
    forall i, j :: 0 <= i < j < |vs| ==>
      vs[i].row < vs[j].row || (vs[i].row == vs[j].row && vs[i].col < vs[j].col)
  }

  /** Every (row, column) position of the first `rows` rows has a cell. */
  predicate Covers(vs: seq<CellView>, rows: nat, attention: Matrix)
    requires rows <= |attention|
  {
    forall r: nat, c: nat :: r < rows && c < |attention[r]| ==> HasCellAt(vs, r, c)
  }

  /** `vs` is the grid of the first `rows` rows of `attention`. */
  predicate GridOf(vs: seq<CellView>, layer: nat, rows: nat, attention: Matrix, tags: Tags, selected: Option<Cell>)
    requires rows <= |attention|
  {
    Wired(vs, layer, rows, attention, tags, selected) && RowMajor(vs) && Covers(vs, rows, attention)
  }

  lemma RowsWiredStep(layer: nat, rows: nat, attention: Matrix, tags: Tags, selected: Option<Cell>)
    requires 0 < rows <= |attention|
    requires Wired(Rows(layer, rows - 1, attention, tags, selected), layer, rows - 1, attention, tags, selected)
    ensures Wired(Rows(layer, rows, attention, tags, selected), layer, rows, attention, tags, selected)
  {
    var init := Rows(layer, rows - 1, attention, tags, selected);
    var last := RowCells(layer, rows - 1, attention[rows - 1], tags, selected);
    var vs := init + last;
    forall i | 0 <= i < |vs| ensures vs[i].row < rows && WiredTo(vs[i], layer, attention, tags, selected) {
      if i < |init| {
        assert vs[i] == init[i];
      } else {
        var c := i - |init|;
        assert vs[i] == last[c] == View(layer, rows - 1, c, attention[rows - 1][c], tags, selected);
      }
    }
  }

  lemma RowsOrderedStep(layer: nat, rows: nat, attention: Matrix, tags: Tags, selected: Option<Cell>)
    requires 0 < rows <= |attention|
    requires Wired(Rows(layer, rows - 1, attention, tags, selected), layer, rows - 1, attention, tags, selected)
    requires RowMajor(Rows(layer, rows - 1, attention, tags, selected))
    ensures RowMajor(Rows(layer, rows, attention, tags, selected))
  {
    var init := Rows(layer, rows - 1, attention, tags, selected);
    var last := RowCells(layer, rows - 1, attention[rows - 1], tags, selected);
    var vs := init + last;
    forall i, j | 0 <= i < j < |vs|
      ensures vs[i].row < vs[j].row || (vs[i].row == vs[j].row && vs[i].col < vs[j].col)
    {
      if j < |init| {
        assert vs[i] == init[i] && vs[j] == init[j];
      } else if i < |init| {
        assert vs[i] == init[i] && vs[j] == last[j - |init|];
      } else {
        assert vs[i] == last[i - |init|] && vs[j] == last[j - |init|];
      }
    }
  }

  lemma RowsCoverStep(layer: nat, rows: nat, attention: Matrix, tags: Tags, selected: Option<Cell>)
    requires 0 < rows <= |attention|
    requires Covers(Rows(layer, rows - 1, attention, tags, selected), rows - 1, attention)
    ensures Covers(Rows(layer, rows, attention, tags, selected), rows, attention)
  {
    var init := Rows(layer, rows - 1, attention, tags, selected);
    var last := RowCells(layer, rows - 1, attention[rows - 1], tags, selected);
    var vs := init + last;
    forall r: nat, c: nat | r < rows && c < |attention[r]| ensures HasCellAt(vs, r, c) {
      if r < rows - 1 {
        assert HasCellAt(init, r, c);
        var i :| 0 <= i < |init| && init[i].row == r && init[i].col == c;
        assert vs[i] == init[i];
      } else {
        assert vs[|init| + c] == last[c];
      }
    }
  }

  lemma {:induction false} RowsSpec(layer: nat, rows: nat, attention: Matrix, tags: Tags, selected: Option<Cell>)
    requires rows <= |attention|
    ensures GridOf(Rows(layer, rows, attention, tags, selected), layer, rows, attention, tags, selected)
  {
    if rows > 0 {
      RowsSpec(layer, rows - 1, attention, tags, selected);
      RowsWiredStep(layer, rows, attention, tags, selected);
      RowsOrderedStep(layer, rows, attention, tags, selected);
      RowsCoverStep(layer, rows, attention, tags, selected);
    }
  }

  /**
   * Enumeration and wiring of one layer's grid: every cell lies in the grid
   * and reports, registers, shows and highlights by its own position; the
   * cells come in row-major order; and every (row, column) position has a cell.
   */
  lemma LayerCellsSpec(layer: nat, tokens: seq<string>, attention: Matrix, tags: Tags, selected: Option<Cell>)
    requires |tokens| <= |attention|
    ensures GridOf(LayerCells(layer, tokens, attention, tags, selected), layer, |tokens|, attention, tags, selected)
  {
    RowsSpec(layer, |tokens|, attention, tags, selected);
  }

  /** Every layer has a weight row for each token, so each layer's grid can render. */
  predicate Renderable(tokens: seq<string>, tensor: seq<Matrix>)
  {
    forall l :: 0 <= l < |tensor| ==> |tokens| <= |tensor[l]|
  }

  /**
   * Across all layers' grids a selection highlights at most one cell: two
   * highlighted cells are the same cell of the same layer.
   */
  lemma SingleSelection(tokens: seq<string>, tensor: seq<Matrix>, tags: Tags, selected: Option<Cell>,
                        l: nat, i: nat, l': nat, i': nat)
    requires Renderable(tokens, tensor)
    requires l < |tensor| && l' < |tensor|
    requires i < |LayerCells(l, tokens, tensor[l], tags, selected)|
    requires i' < |LayerCells(l', tokens, tensor[l'], tags, selected)|
    requires LayerCells(l, tokens, tensor[l], tags, selected)[i].isSelected
    requires LayerCells(l', tokens, tensor[l'], tags, selected)[i'].isSelected
    ensures l == l' && i == i'
  {
    var vs, vs' := LayerCells(l, tokens, tensor[l], tags, selected), LayerCells(l', tokens, tensor[l'], tags, selected);
    LayerCellsSpec(l, tokens, tensor[l], tags, selected);
    LayerCellsSpec(l', tokens, tensor[l'], tags, selected);
    assert selected == Some(Cell(l, vs[i].row, vs[i].col)) == Some(Cell(l', vs'[i'].row, vs'[i'].col));
  }

  /** In a well-formed result every cell of every layer's grid reports a cell in the grid. */
  lemma ClicksStayInGrid(r: AnalysisResult, tags: Tags, selected: Option<Cell>, l: nat, i: nat)
    requires WellFormed(r) && l < |r.attention|
    requires i < |LayerCells(l, r.tokens, r.attention[l], tags, selected)|
    ensures InGrid(r, LayerCells(l, r.tokens, r.attention[l], tags, selected)[i].onClick)
  {
    LayerCellsSpec(l, r.tokens, r.attention[l], tags, selected);
  }
}
