/** Rendering of a solution path: each state as a line of ASCII digits, and
    each step labelled by the cell that was pressed, or as the start. */
module Render {
  import opened Wrappers
  import opened Grid
  import opened ToggleState
  import opened Puzzle
  import opened SearchPath

  /** Each cell value `v` as the byte `v + 48`, the ASCII digit for 0 to 9.
      A cell above 207 would give a value that is not a byte, which Python's
      `bytes` rejects by raising; here that is `None`. */
  function Prettify(state: State): (text: Option<seq<Byte>>)
    ensures text.Some? <==> forall i :: 0 <= i < |state| ==> state[i] < 208
    ensures text.Some? ==> |text.value| == |state|
    ensures text.Some? ==> forall i :: 0 <= i < |state| ==> text.value[i] == state[i] + 48
  {
    if forall i :: 0 <= i < |state| ==> state[i] < 208 then
      Some(seq(|state|, i requires 0 <= i < |state| && state[i] < 208 => state[i] + 48))
    else
      None
  }

  /** A 0/1 state renders as a line of the characters '0' and '1'. */
  lemma PrettifyBinaryDigits(s: State)
    requires IsBinary(s)
    ensures Prettify(s).Some?
    ensures forall i :: 0 <= i < |s| ==>
      Prettify(s).value[i] == (if s[i] == 0 then '0' as int else '1' as int)
  {
  }

  /** Different states render differently. */
  lemma PrettifyInjective(s: State, t: State)
    requires Prettify(s).Some? && Prettify(s) == Prettify(t)
    ensures s == t
  {
    assert |s| == |t|;
    forall i | 0 <= i < |s|
      ensures s[i] == t[i]
    {
      assert Prettify(s).value[i] == Prettify(t).value[i];
    }
  }

  /** What a printed step names: the start of the path, or the pressed cell
      as (row, column). */
  datatype Label = Start | Cell(row: int, col: int)

  /** The label as the source computes it, `node.action and to_coord(...)
      or 'start'`: an action of 0 is false in Python, so pressing cell 0 is
      labelled like the root. */
  function StepLabelAsWritten(node: Node, n: int): (shown: Label)
    requires n > 0
    ensures shown.Start? <==> node.action.None? || node.action == Some(0)
  {
    match node.action
    case None => Start
    case Some(a) =>
      if a == 0 then Start
      else
        var (r, c) := ToCoord(a, n);
        Cell(r, c)
  }

  /** The label with the root told apart by its missing action: every node
      that carries an action is labelled by the coordinates of that cell. */
  function StepLabel(node: Node, n: int): (shown: Label)
    requires n > 0
    ensures shown.Start? <==> node.action.None?
    ensures shown.Cell? ==> CellIndex(shown.row, shown.col, n) == node.action.value && 0 <= shown.col < n
  {
    match node.action
    case None => Start
    case Some(a) =>
      var (r, c) := ToCoord(a, n);
      Cell(r, c)
  }

  /** The two labels differ exactly on a press of cell 0. */
  lemma LabelsDifferOnlyForCellZero(node: Node, n: int)
    requires n > 0
    ensures StepLabel(node, n) != StepLabelAsWritten(node, n) <==> node.action == Some(0)
  {
  }

  /** Pressing cell 0 first from the initial state: the source labels that
      genuine step 'start', the corrected label names cell (0, 0). */
  lemma FirstPressOfCellZeroShownAsStart(p: ToggleProblem)
    requires p.Valid() && p.n > 0
    ensures var root := Node(p.initial, None, None);
      var child := Node(p.Result(p.initial, 0), Some(0), Some(root));
      && BuiltBy(p, child)
      && StepLabelAsWritten(child, p.n) == Start
      && StepLabel(child, p.n) == Cell(0, 0)
  {
  }

  /** Along a search path, the corrected labels name the start once, for
      the root, and a cell for every later step. */
  lemma TraceLabels(node: Node, n: int)
    requires n > 0 && ActionsMarkSteps(node)
    ensures var path := Trace(node);
      && StepLabel(path[0], n) == Start
      && forall i :: 0 < i < |path| ==> StepLabel(path[i], n).Cell?
  {
    TraceActions(node);
  }
}
