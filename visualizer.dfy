/**
 * The visualizer component: it splits the sentence into tokens, builds an
 * attention tensor of NUM_LAYERS square layers, and keeps the session
 * state (the analysis result, the tags, the selected cell, the connector
 * lines and the element registry) in step.
 */
module BertVisualizer {
  import opened Types
  import opened CellKey
  import opened TopKSelector
  import opened Connectors

  /** How many layers the placeholder data source builds. */
  const NUM_LAYERS: nat := 4

  /** The characters the pattern `\s` matches: white space and line terminators. */
  predicate IsSpace(c: char)
  {
    || c == '\t' || c == '\n' || c == '\U{000B}' || c == '\U{000C}' || c == '\r' || c == ' '
    || c == '\U{00A0}' || c == '\U{1680}' || ('\U{2000}' <= c <= '\U{200A}')
    || c == '\U{2028}' || c == '\U{2029}' || c == '\U{202F}' || c == '\U{205F}'
    || c == '\U{3000}' || c == '\U{FEFF}'
  }

  predicate IsWord(w: string)
  {
    |w| > 0 && forall i :: 0 <= i < |w| ==> !IsSpace(w[i])
  }

  /** The length of the run of non-space characters that starts `s`. */
  function WordLength(s: string): (n: nat)
    ensures n <= |s|
    ensures forall i :: 0 <= i < n ==> !IsSpace(s[i])
    ensures n < |s| ==> IsSpace(s[n])
  {
    if s == [] || IsSpace(s[0]) then 0 else 1 + WordLength(s[1..])
  }

  /** `sentence.trim().split(/\s+/).filter(Boolean)`: the maximal runs of non-space characters. */
  function Tokenize(s: string): (words: seq<string>)
    ensures forall i :: 0 <= i < |words| ==> IsWord(words[i])
    decreases |s|
  {
    if s == [] then []
    else if IsSpace(s[0]) then Tokenize(s[1..])
    else
      var n := WordLength(s);
      [s[..n]] + Tokenize(s[n..])
  }

  /** Words separated by single spaces. */
  function Join(words: seq<string>): string
  {
    if words == [] then "" else if |words| == 1 then words[0] else words[0] + " " + Join(words[1..])
  }

  lemma {:induction false} WordLengthOfWord(w: string, rest: string)
    requires IsWord(w)
    requires rest == [] || IsSpace(rest[0])
    ensures WordLength(w + rest) == |w|
  {
    if |w| > 1 {
      assert w[1..] + rest == (w + rest)[1..];
      WordLengthOfWord(w[1..], rest);
    }
  }

  /** A word followed by white space or the end is split off as one token. */
  lemma TokenizeWord(w: string, rest: string)
    requires IsWord(w)
    requires rest == [] || IsSpace(rest[0])
    ensures Tokenize(w + rest) == [w] + Tokenize(rest)
  {
    var s := w + rest;
    assert s[0] == w[0];
    WordLengthOfWord(w, rest);
    assert s[..|w|] == w;
    assert s[|w|..] == rest;
  }

  /** Tokenizing words joined by spaces gives the words back. */
  lemma {:induction false} TokenizeJoin(words: seq<string>)
    requires forall i :: 0 <= i < |words| ==> IsWord(words[i])
    ensures Tokenize(Join(words)) == words
  {
    if |words| == 1 {
      TokenizeWord(words[0], "");
      assert words[0] + "" == words[0];
    } else if |words| > 1 {
      var rest := " " + Join(words[1..]);
      assert Join(words) == words[0] + rest;
      TokenizeWord(words[0], rest);
      assert rest[1..] == Join(words[1..]);
      assert Tokenize(rest) == Tokenize(Join(words[1..]));
      TokenizeJoin(words[1..]);
      assert words == [words[0]] + words[1..];
    }
  }

  /**
   * The placeholder data source: NUM_LAYERS layers of |tokens| x |tokens|
   * weights, weight (l, i, j) taken from `draw`, which stands for the
   * random number generator.
   */
  function GenerateMockData(sentence: string, draw: (nat, nat, nat) -> real): (r: AnalysisResult)
    ensures r.tokens == Tokenize(sentence)
    ensures |r.attention| == NUM_LAYERS && WellFormed(r)
    ensures forall l, i, j :: 0 <= l < NUM_LAYERS && 0 <= i < |r.tokens| && 0 <= j < |r.tokens| ==>
      r.attention[l][i][j] == draw(l, i, j)
  {
    var tokens := Tokenize(sentence);
    var n := |tokens|;
    AnalysisResult(tokens, seq(NUM_LAYERS, l requires 0 <= l < NUM_LAYERS =>
      seq(n, i requires 0 <= i < n =>
        seq(n, j requires 0 <= j < n => draw(l, i, j)))))
  }

  class Visualizer {
    var sentence: string
    var result: Option<AnalysisResult>
    var tags: Tags
    var selected: Option<Cell>
    var lines: seq<Line>
    /** Cell key to the element last registered under it; null after unmount. */
    var cellRefs: map<string, Option<Element>>

    /**
     * The result, when there is one, is N x N in every layer, and the
     * selection, when there is one, is a cell that the result's grids render.
     */
    ghost predicate Valid()
      reads this
    {
      && (result.Some? ==> WellFormed(result.value))
      && (selected.Some? ==> result.Some? && InGrid(result.value, selected.value))
    }

    /** The initial component state, before the mount effect runs the first analysis. */
    constructor ()
      ensures Valid()
      ensures sentence == "BERT helps visualize attention"
      ensures result == None && tags == map[] && selected == None && lines == [] && cellRefs == map[]
    {
      sentence := "BERT helps visualize attention";
      result := None;
      tags := map[];
      selected := None;
      lines := [];
      cellRefs := map[];
    }

    /** The text box's change handler. */
    method EditSentence(s: string)
      requires Valid()
      modifies this`sentence
      ensures Valid()
      ensures sentence == s
    {
      sentence := s;
    }

    /** `setCellRef`: record (or clear, with None) the element that renders `id`. */
    method SetCellRef(el: Option<Element>, id: string)
      requires Valid()
      modifies this`cellRefs
      ensures Valid()
      ensures cellRefs == old(cellRefs)[id := el]
    {
      cellRefs := cellRefs[id := el];
    }

    /** `handleAnalyze`: a new result, and no tags, selection or lines. */
    method Analyze(draw: (nat, nat, nat) -> real)
      modifies this`result, this`tags, this`selected, this`lines
      ensures Valid()
      ensures result == Some(GenerateMockData(sentence, draw))
      ensures |result.value.attention| == NUM_LAYERS && result.value.tokens == Tokenize(sentence)
      ensures tags == map[] && selected == None && lines == []
    {
      result := Some(GenerateMockData(sentence, draw));
      tags := map[];
      selected := None;
      lines := [];
    }

    /** `handleTagUpdate`: overwrite the tag of `key` only. */
    method TagUpdate(key: string, name: string)
      requires Valid()
      modifies this`tags
      ensures Valid()
      ensures tags == old(tags)[key := Tag(name)]
      ensures forall k :: k != key ==> Lookup(tags, k) == Lookup(old(tags), k)
    {
      tags := tags[key := Tag(name)];
    }

    /**
     * `handleNeuronClick`: select the clicked cell, whether or not it was
     * selected before. Its callers are the rendered cells, which report
     * their own position (`AttentionLayer.ClicksStayInGrid`).
     */
    method Click(layer: nat, row: nat, col: nat)
      requires Valid() && result.Some? && InGrid(result.value, Cell(layer, row, col))
      modifies this`selected
      ensures Valid()
      ensures selected == Some(Cell(layer, row, col))
    {
      selected := Some(Cell(layer, row, col));
    }

    /**
     * `calculateLines`: rebuild the connectors for the current selection from
     * the container's box and the boxes of the registered elements.
     */
    method CalculateLines(container: Option<Rect>, box: Element -> Rect)
      requires Valid()
      modifies this`lines
      ensures Valid() && selected == old(selected) && tags == old(tags) && result == old(result)
      ensures cellRefs == old(cellRefs)
      ensures lines == Apply(Recompute(result, selected, Geometry(cellRefs, box), container), old(lines))
      ensures selected.None? || result.None? ==> lines == []
      ensures selected.Some? && result.Some? && container.None? ==> lines == old(lines)
      ensures (selected.Some? && result.Some? && container.Some? &&
               selected.value.layer >= |result.value.attention| - 1) ==> lines == []
      ensures (selected.Some? && result.Some? && container.Some? &&
               selected.value.layer < |result.value.attention| - 1 &&
               (CellId(selected.value) !in cellRefs || cellRefs[CellId(selected.value)].None?)) ==>
              lines == old(lines)
    {
      if selected.None? || result.None? {
        lines := [];
        return;
      }
      if container.None? {
        return;
      }
      var source, attention := selected.value, result.value.attention;
      if source.layer >= |attention| - 1 {
        lines := [];
        return;
      }
      var sourceId := Key(source.layer, source.row, source.col);
      if sourceId !in cellRefs || cellRefs[sourceId].None? {
        return;
      }
      var from := Centre(box(cellRefs[sourceId].value), container.value);
      var topKIndices := TopKIndices(attention[source.layer + 1][source.row], TOP_K);
      lines := TargetLines(sourceId, from, source.layer + 1, source.row, topKIndices,
                           Geometry(cellRefs, box), container.value);
    }
  }
}
