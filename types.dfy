/**
 * The data model shared by the attention grid and the connector engine:
 * an analysis result (tokens and a layered attention tensor), cell
 * identities, tags, bounding boxes and connector segments.
 */
module Types {

  datatype Option<+T> = None | Some(value: T)

  /** A cell of one layer's heatmap: the non-null case of a selected neuron. */
  datatype Cell = Cell(layer: nat, row: nat, col: nat)

  /** A bounding box as the host reports it, in viewport coordinates. */
  datatype Rect = Rect(left: real, top: real, width: real, height: real)

  /** A connector segment, drawn from (x1, y1) to (x2, y2). */
  datatype Line = Line(key: string, x1: real, y1: real, x2: real, y2: real)

  /** The label a user gave a cell. */
  datatype Tag = Tag(name: string)

  /** Cell key to tag; a key that is absent means "untagged". */
  type Tags = map<string, Tag>

  /** An opaque handle to a rendered cell element, owned by the rendering layer. */
  type Element = nat

  /** One layer's weights, indexed [row][col]. */
  type Matrix = seq<seq<real>>

  datatype AnalysisResult = AnalysisResult(tokens: seq<string>, attention: seq<Matrix>)

  /** Every layer of the tensor is N x N, where N is the number of tokens. */
  predicate WellFormed(r: AnalysisResult)
  {
    forall l :: 0 <= l < |r.attention| ==>
      |r.attention[l]| == |r.tokens| &&
      forall i :: 0 <= i < |r.tokens| ==> |r.attention[l][i]| == |r.tokens|
  }

  /** The cell is one of the cells the grids of `r` render. */
  predicate InGrid(r: AnalysisResult, c: Cell)
  {
    c.layer < |r.attention| && c.row < |r.tokens| && c.col < |r.tokens|
  }

  /** The value a map holds for a key, as a JavaScript record lookup gives it. */
  function Lookup<K, V>(m: map<K, V>, k: K): (r: Option<V>)
    ensures r.Some? <==> k in m
    ensures r.Some? ==> r.value == m[k]
  {
    if k in m then Some(m[k]) else None
  }
}
