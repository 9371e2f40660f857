/**
 * The connector pass of the visualizer as a pure function of the state it
 * reads: the analysis result, the selected cell, the geometry of the
 * mounted cells and the container's box. Its outcome either keeps the
 * current line list (the two early returns) or replaces it.
 */
module Connectors {
  import opened Types
  import opened CellKey
  import opened TopKSelector

  /** How many successor cells a selected cell is connected to. */
  const TOP_K: nat := 3

  datatype Point = Point(x: real, y: real)

  /** The centre of a box, relative to the container's top-left corner. */
  function Centre(box: Rect, container: Rect): Point
  {
    Point(box.left - container.left + box.width / 2.0, box.top - container.top + box.height / 2.0)
  }

  /**
   * The boxes of the mounted cells: a key whose element reference is null
   * or was never set has no box.
   */
  function Geometry(refs: map<string, Option<Element>>, box: Element -> Rect): (g: map<string, Rect>)
    ensures forall k :: k in g <==> k in refs && refs[k].Some?
    ensures forall k :: k in g ==> g[k] == box(refs[k].value)
  {
    map k | k in refs && refs[k].Some? :: box(refs[k].value)
  }

  /** The connector to one target column, or None when the target is not mounted. */
  function Connector(sourceId: string, from: Point, layer: nat, row: nat, col: nat,
                     registry: map<string, Rect>, container: Rect): Option<Line>
  {
    var targetId := Key(layer, row, col);
    if targetId in registry then
      var to := Centre(registry[targetId], container);
      Some(Line(sourceId + "-" + targetId, from.x, from.y, to.x, to.y))
    else None
  }

  /** `topKIndices.map(...)` followed by `filter(line => line !== null)`. */
  function TargetLines(sourceId: string, from: Point, layer: nat, row: nat, cols: seq<nat>,
                       registry: map<string, Rect>, container: Rect): seq<Line>
  {
    if cols == [] then []
    else
      var rest := TargetLines(sourceId, from, layer, row, cols[1..], registry, container);
      match Connector(sourceId, from, layer, row, cols[0], registry, container)
      case Some(line) => [line] + rest
      case None => rest
  }

  /** The columns among `cols`, in their order, whose cell in (layer, row) is mounted. */
  function Mounted(layer: nat, row: nat, cols: seq<nat>, registry: map<string, Rect>): seq<nat>
  {
    if cols == [] then []
    else
      var rest := Mounted(layer, row, cols[1..], registry);
      if Key(layer, row, cols[0]) in registry then [cols[0]] + rest else rest
  }

  /** The lines for one source cell whose own box is known (lines 81-102). */
  function BuildLines(source: Cell, weights: seq<real>, registry: map<string, Rect>, container: Rect): seq<Line>
    requires CellId(source) in registry
  {
    var from := Centre(registry[CellId(source)], container);
    TargetLines(CellId(source), from, source.layer + 1, source.row, TopK(weights, TOP_K), registry, container)
  }

  /** What a connector pass does to the line list. */
  datatype Update = Keep | Replace(lines: seq<Line>)

  function Apply(u: Update, lines: seq<Line>): seq<Line>
  {
    match u
    case Keep => lines
    case Replace(replacement) => replacement
  }

  /** The weight row `attention[layer + 1][row]` exists whenever the pass reads it. */
  predicate WeightRowExists(result: Option<AnalysisResult>, selected: Option<Cell>)
  {
    result.Some? && selected.Some? && selected.value.layer + 1 < |result.value.attention| ==>
      selected.value.row < |result.value.attention[selected.value.layer + 1]|
  }

  /** A selection of a rendered cell of a well-formed result always has its weight row. */
  lemma RenderedSelectionHasWeightRow(r: AnalysisResult, c: Cell)
    requires WellFormed(r) && InGrid(r, c)
    ensures WeightRowExists(Some(r), Some(c))
  {
    if c.layer + 1 < |r.attention| {
      assert |r.attention[c.layer + 1]| == |r.tokens|;
    }
  }

  /**
   * `calculateLines`, branch by branch (lines 62-105). The lines are kept
   * exactly on the two early returns: no container, or a source cell that is
   * not mounted although it has a successor layer. They are cleared without
   * a selection or a result, and for a source in the last layer.
   */
  function Recompute(result: Option<AnalysisResult>, selected: Option<Cell>,
                     registry: map<string, Rect>, container: Option<Rect>): (u: Update)
    requires WeightRowExists(result, selected)
    ensures u.Keep? <==>
      selected.Some? && result.Some? &&
      (container.None? ||
       (selected.value.layer < |result.value.attention| - 1 && CellId(selected.value) !in registry))
    ensures selected.None? || result.None? ==> u == Replace([])
    ensures (selected.Some? && result.Some? && container.Some? &&
             selected.value.layer >= |result.value.attention| - 1) ==> u == Replace([])
  {
    if selected.None? || result.None? then Replace([])
    else if container.None? then Keep
    else
      var source, attention := selected.value, result.value.attention;
      if source.layer >= |attention| - 1 then Replace([])
      else if CellId(source) !in registry then Keep
      else Replace(BuildLines(source, attention[source.layer + 1][source.row], registry, container.value))
  }

  lemma {:induction false} MountedMembers(layer: nat, row: nat, cols: seq<nat>, registry: map<string, Rect>)
    ensures forall c :: c in Mounted(layer, row, cols, registry) <==> c in cols && Key(layer, row, c) in registry
    ensures |Mounted(layer, row, cols, registry)| <= |cols|
  {
    if cols != [] {
      MountedMembers(layer, row, cols[1..], registry);
      assert forall c :: c in cols <==> c == cols[0] || c in cols[1..];
    }
  }

  /** Filtering keeps the ranking order of the columns that survive. */
  lemma {:induction false} MountedRanked(weights: seq<real>, layer: nat, row: nat, cols: seq<nat>,
                                         registry: map<string, Rect>)
    requires forall i, j :: 0 <= i < j < |cols| ==> RanksBefore(weights, cols[i], cols[j])
    ensures var m := Mounted(layer, row, cols, registry);
      forall i, j :: 0 <= i < j < |m| ==> RanksBefore(weights, m[i], m[j])
  {
    if cols != [] {
      var rest := Mounted(layer, row, cols[1..], registry);
      MountedRanked(weights, layer, row, cols[1..], registry);
      MountedMembers(layer, row, cols[1..], registry);
      if Key(layer, row, cols[0]) in registry {
        var m := [cols[0]] + rest;
        forall j | 0 < j < |m| ensures RanksBefore(weights, m[0], m[j]) {
          assert m[j] in rest;
          var t :| 0 <= t < |cols[1..]| && cols[1..][t] == m[j];
          assert cols[t + 1] == m[j];
        }
      }
    }
  }

  /** The lines are the connectors to the mounted columns, one each, in order. */
  lemma {:induction false} TargetLinesAreMounted(sourceId: string, from: Point, layer: nat, row: nat,
                                                 cols: seq<nat>, registry: map<string, Rect>, container: Rect)
    ensures var ls, m := TargetLines(sourceId, from, layer, row, cols, registry, container),
                         Mounted(layer, row, cols, registry);
      |ls| == |m| &&
      forall i :: 0 <= i < |m| ==>
        Key(layer, row, m[i]) in registry &&
        ls[i] == Line(sourceId + "-" + Key(layer, row, m[i]), from.x, from.y,
                      Centre(registry[Key(layer, row, m[i])], container).x,
                      Centre(registry[Key(layer, row, m[i])], container).y)
  {
    if cols != [] {
      TargetLinesAreMounted(sourceId, from, layer, row, cols[1..], registry, container);
    }
  }

  /** Different targets give different line keys. */
  lemma LineKeysDistinct(sourceId: string, layer: nat, row: nat, c: nat, c': nat)
    requires c != c'
    ensures sourceId + "-" + Key(layer, row, c) != sourceId + "-" + Key(layer, row, c')
  {
    KeyInjective(layer, row, c, layer, row, c');
    var k, k' := Key(layer, row, c), Key(layer, row, c');
    var n := |sourceId| + 1;
    assert (sourceId + "-" + k)[n..] == k;
    assert (sourceId + "-" + k')[n..] == k';
  }

  /**
   * The lines a pass emits for a mounted source cell (lines 81-102): one per
   * top-ranked column whose cell is mounted, at most TOP_K, in ranking
   * order, keyed `sourceId-targetId` with pairwise distinct keys, all from
   * the source's centre to their target's centre; a top-ranked column is
   * left out exactly when its cell is not mounted.
   */
  lemma BuildLinesSpec(source: Cell, weights: seq<real>, registry: map<string, Rect>, container: Rect)
    requires CellId(source) in registry
    ensures var ls, top := BuildLines(source, weights, registry, container), TopK(weights, TOP_K);
      var next, from := source.layer + 1, Centre(registry[CellId(source)], container);
      var m := Mounted(next, source.row, top, registry);
      && |ls| == |m| <= TOP_K
      && (forall c :: c in m <==> c in top && Key(next, source.row, c) in registry)
      && (forall i, j :: 0 <= i < j < |m| ==> RanksBefore(weights, m[i], m[j]))
      && (forall i :: 0 <= i < |ls| ==>
            var target := Key(next, source.row, m[i]);
            && target in registry
            && ls[i].key == CellId(source) + "-" + target
            && ls[i].x1 == from.x && ls[i].y1 == from.y
            && ls[i].x2 == Centre(registry[target], container).x
            && ls[i].y2 == Centre(registry[target], container).y)
      && (forall i, j :: 0 <= i < |ls| && 0 <= j < |ls| && i != j ==> ls[i].key != ls[j].key)
  {
    var top := TopK(weights, TOP_K);
    var next, from := source.layer + 1, Centre(registry[CellId(source)], container);
    var m := Mounted(next, source.row, top, registry);
    var ls := BuildLines(source, weights, registry, container);
    TopKSpec(weights, TOP_K);
    MountedMembers(next, source.row, top, registry);
    MountedRanked(weights, next, source.row, top, registry);
    TargetLinesAreMounted(CellId(source), from, next, source.row, top, registry, container);
    forall i, j | 0 <= i < |ls| && 0 <= j < |ls| && i != j ensures ls[i].key != ls[j].key {
      if i < j {
        assert RanksBefore(weights, m[i], m[j]);
      } else {
        assert RanksBefore(weights, m[j], m[i]);
      }
      LineKeysDistinct(CellId(source), next, source.row, m[i], m[j]);
    }
  }

  /**
   * A pass does not read the lines it replaces, so a second pass over the
   * same result, selection, registry and container (which a pass leaves
   * unchanged) leaves the lines as the first pass left them.
   */
  lemma RecomputeIdempotent(result: Option<AnalysisResult>, selected: Option<Cell>,
                            registry: map<string, Rect>, container: Option<Rect>, lines: seq<Line>)
    requires WeightRowExists(result, selected)
    ensures var u := Recompute(result, selected, registry, container);
      Apply(u, Apply(u, lines)) == Apply(u, lines)
  {
  }
}
