# Toggle-grid puzzle as a search problem

This project models the state-space core of a "Lights-Out"-style puzzle
(`problem.py`). The board is n by n. Its cells are numbered row-major and
each holds 0 or 1. Pressing a cell flips that cell and its orthogonal
neighbours that lie on the board. The goal is every cell on.

The model covers:

- `Grid`: the board topology. `ToCoord` splits a flat index into a row and
  a column. `ChangeElements` lists the cells one press toggles.
  `BuildTransformMap` is the per-action table of those lists.
- `ToggleState`: states as sequences of bytes, and `Toggle`, which builds a
  new state with the listed cells flipped.
- `Puzzle`: the problem adapter that a generic search strategy consumes.
  It holds the initial state, the all-ones goal, the action list, the
  transition `Result` and `GoalTest`. `Replay` applies a list of presses.
- `SearchPath`: the search node (state, producing action, parent) and the
  walk from a terminal node back to the root. `NodeList` is the loop.
  `Ancestry` is the function it is proved against. `Trace` is the reversed
  walk, root first, as the driver prints it.
- `Render`: a state as ASCII digits, and the label printed for each step.

The side length `n` is a parameter, with `|initial| == n * n`. The source
computes it as `int(sqrt(size))` instead.

## Model

| member | source | states |
|---|---|---|
| `Grid.ToCoord` | problem.py:9-10 | row * n + column gives back the index; the column is in [0, n); an index on the board has its row in [0, n) |
| `Grid.ToCoordRoundTrip` | problem.py:9-10 | the coordinates of `r * n + c` are `(r, c)` whenever `0 <= c < n`, so the split is unique |
| `Grid.ChangeElements` | problem.py:13-21 | every listed cell is on the board, and a cell on the board always lists itself |
| `Grid.ChangeElementsIncreasing` | problem.py:13-21 | the cells come in strictly increasing order (up, left, self, right, down), so none repeats |
| `Grid.ChangeElementsMembers` | problem.py:13-21 | a cell is listed exactly when it is on the board and is the pressed cell or an orthogonal neighbour (both directions) |
| `Grid.ChangeElementsCount` | problem.py:15-21 | a cell on the board toggles 5 cells minus one for each board edge it lies on |
| `Grid.ChangeElementsSizeByPosition` | problem.py:15-21 | for n >= 2: a corner toggles 3 cells, another edge cell 4, an interior cell 5 |
| `Grid.SingleCellBoard` | problem.py:13-21 | on a 1 by 1 board the only cell toggles itself alone |
| `Grid.BuildTransformMap` | problem.py:24-25 | the table has n * n entries, and entry i is the toggle set of cell i |
| `ToggleState.Toggle` | problem.py:28-32 | same length; a listed 0 becomes 1 and a listed nonzero byte becomes 0; unlisted cells are copied; 0/1 input gives 0/1 output |
| `ToggleState.ToggleInvolution` | problem.py:28-32 | on a 0/1 state, toggling the same cells twice gives back the state |
| `ToggleState.ToggleComplements` | problem.py:28-32 | on a 0/1 state, a listed cell takes the value 1 - v |
| `ToggleState.ToggleCommutes` | problem.py:28-32 | two toggles give the same state in either order |
| `ToggleState.ToggleTwiceNormalises` | problem.py:30 | on any state, a cell toggled twice ends as 0 if it was 0 and as 1 otherwise, so a byte of 2 is not restored |
| `Puzzle.AllOnes` | problem.py:38 | the goal has the initial state's length and every cell equal to 1 |
| `Puzzle.Range` | problem.py:40 | the action list is 0 .. size - 1 in order |
| `Puzzle.NewProblem` | problem.py:36-40 | the problem built from `initial` and `n` keeps `initial` and satisfies `Valid`: goal all ones, table from `BuildTransformMap(n)`, actions 0 .. n*n - 1 |
| `Puzzle.ToggleProblem.Actions` | problem.py:42-43 | every cell index 0 .. n*n - 1, in order, whatever the state |
| `Puzzle.ToggleProblem.Result` | problem.py:45-46 | the cached table entry gives the same state as toggling `ChangeElements(action, n)` |
| `Puzzle.ToggleProblem.GoalTest` | problem.py:48-49 | true exactly when the state has n * n cells and every cell is 1 |
| `Puzzle.ToggleProblem.Replay` | problem.py:45-46 | pressing a list of cells in order keeps the length and keeps a 0/1 state 0/1 |
| `Puzzle.ReplayPairOrderIndependent` | problem.py:45-46 | replaying two presses gives the same state in either order |
| `Puzzle.ResultInvolution` | problem.py:45-46 | on a 0/1 state, pressing a cell twice returns to the state |
| `Puzzle.ResultCommutes` | problem.py:45-46 | two presses give the same state in either order |
| `Puzzle.ResultNeighbourhood` | problem.py:45-46 | on a board-sized state, a press flips exactly the pressed cell and its on-board orthogonal neighbours; all other cells are unchanged |
| `Puzzle.GoalTestIsGoal` | problem.py:48-49 | the goal test holds exactly for the all-ones state of n * n cells |
| `SearchPath.Root` | problem.py:56-62 | the node where the walk ends has no parent |
| `SearchPath.Ancestry` | problem.py:56-62 | the walk yields the terminal node first and one node per ancestor plus one |
| `SearchPath.AncestryLinks` | problem.py:56-62 | each yielded node is followed by its parent, and the last one is the root |
| `SearchPath.NodeList` | problem.py:56-62 | given no node (a failed search) the walk yields nothing; given a node, the loop that follows `parent` until none is left yields exactly `Ancestry(node)` |
| `SearchPath.Trace` | problem.py:78 | the reversed walk: element i is the walk's element counted from the end |
| `SearchPath.TraceShape` | problem.py:78 | the reversed walk starts at the root, ends at the terminal node, has depth + 1 elements, and each element's parent is the one before it |
| `SearchPath.PathActionsLegal` | problem.py:45-46 | a chain built with `Result` from the problem's actions holds only legal actions |
| `SearchPath.BuiltChainReplays` | problem.py:45-46 | the terminal state of such a chain is the root state with the path's actions replayed in order |
| `SearchPath.PathActionsCount` | problem.py:94 | a path has one action per ancestor, so its length (as counted by `len(list(get_node_list(node)))`) is the number of actions plus one |
| `SearchPath.BuiltByMarksSteps` | problem.py:45-46 | in a chain built for the problem the root has no action and every other node has one |
| `SearchPath.AncestryActions` | problem.py:56-62 | on such a path the walk meets the only action-less node last |
| `SearchPath.TraceActions` | problem.py:78 | in the reversed walk the only action-less node comes first |
| `Render.Prettify` | problem.py:52-53 | same length, each value v becomes v + 48; a cell above 207 makes the conversion fail |
| `Render.PrettifyBinaryDigits` | problem.py:52-53 | a 0/1 state renders as the characters '0' and '1' |
| `Render.PrettifyInjective` | problem.py:52-53 | two states with the same rendering are equal |
| `Render.StepLabelAsWritten` | problem.py:67 | as written: the label is 'start' exactly when the action is missing or is 0 |
| `Render.StepLabel` | problem.py:67 | corrected: 'start' exactly when the action is missing; otherwise the cell's row and column, which give back the action |
| `Render.LabelsDifferOnlyForCellZero` | problem.py:67 | the two labels differ exactly for a press of cell 0 |
| `Render.FirstPressOfCellZeroShownAsStart` | problem.py:67 | a legal first press of cell 0 is labelled 'start' as written and (0, 0) when corrected |
| `Render.TraceLabels` | problem.py:78-79 | along any search path the corrected label is 'start' for the root and a cell for every later step |

## Left out

- The search library (`Problem`, the breadth-first, depth-first, iterative-deepening and depth-limited searches) is not part of this model. Its nodes are a `Node` datatype. `SearchPath.BuiltBy` states the assumed construction: the root has no action, and each child holds `Result` of its parent's state.
- `compare_searchers` is left out: wall-clock timing and sorting by floating-point durations. Only the path length it prints is modelled, by `SearchPath.PathActionsCount`.
- All printing and the hard-coded driver in `main` are left out. The printed label is modelled by `Render.StepLabel`. The printed state is modelled by `Render.Prettify`.
- `int(sqrt(size))` is replaced by an explicit `n` with `|initial| == n * n`. The source builds a table for the rounded-down root when the length is not a perfect square. The model does not represent that case.
- `Puzzle.ToggleProblem.Result`: requires an action in 0 .. n*n - 1, the only actions `Actions` offers. Python would accept a negative action and index the table from its end. It would raise `IndexError` past the end.
- `Grid.ToCoord`: requires n > 0. Python raises `ZeroDivisionError` for n = 0 and floors for negative n. The source never calls it that way: an empty table for n = 0 makes no call.
- `SearchPath.NodeList`: returns the whole list, while the source is a lazy generator. Every caller materialises it with `list(...)`.
- `SearchPath.NodeList`: the `raise StopIteration` at the root is taken as "the walk ends there". Since Python 3.7 (PEP 479) that line turns into a `RuntimeError` in the caller. That behaviour is not modelled.
- The source tests nodes for truth (`while current`). The model treats a missing node (`None`, also what a failed search hands over) as false and every real node as true.
- The usual statement that a corner cell toggles 3 cells holds only for n >= 2: for n = 1 the only cell toggles itself alone (`Grid.SingleCellBoard`). The usual statement that toggling twice restores any state holds only for 0/1 states (`ToggleState.ToggleTwiceNormalises`). The model follows the code in both.

## Findings

| source | as written | input that shows it | evidently intended | confidence | as-written member | corrected member |
|---|---|---|---|---|---|---|
| problem.py:67 | `node.action and to_coord(node.action, n) or 'start'` treats action 0 as false | any path whose step presses cell 0 (top-left), e.g. a first press of cell 0 from the initial state | only the root, whose action is missing, is labelled 'start'; a press of cell 0 shows (0, 0) | high; not executed | `Render.StepLabelAsWritten` | `Render.StepLabel` |
