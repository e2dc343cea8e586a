/** The toggle puzzle as a search problem: the initial state, the all-ones
    goal, the actions (every cell index), the transition (`Result`) and the
    goal test that a generic search strategy consumes. The side length `n`
    is given explicitly with `|initial| == n * n`. */
module Puzzle {
  import opened Grid
  import opened ToggleState

  /** Every cell on. */
  function AllOnes(size: nat): (s: State)
    ensures |s| == size && forall i :: 0 <= i < size ==> s[i] == 1
  {
    seq(size, _ => 1)
  }

  /** The indices `0 .. size - 1` in order. */
  function Range(size: nat): (s: seq<int>)
    ensures |s| == size && forall i :: 0 <= i < size ==> s[i] == i
  {
    seq(size, i => i)
  }

  /** A problem instance; every field is computed once by `NewProblem` and
      only read afterwards. */
  datatype ToggleProblem = ToggleProblem(
    initial: State,
    goal: State,
    n: nat,
    transformMap: seq<seq<int>>,
    actionList: seq<int>)
  {
    /** The fields agree with what `NewProblem` computes from `initial` and `n`. */
    predicate Valid() {
      && |initial| == n * n
      && goal == AllOnes(|initial|)
      && transformMap == BuildTransformMap(n)
      && actionList == Range(|initial|)
    }

    /** Every cell can be pressed, whatever the state. */
    function Actions(state: State): (acts: seq<int>)
      requires Valid()
      ensures |acts| == n * n
      ensures forall i :: 0 <= i < |acts| ==> acts[i] == i
    {
      actionList
    }

    /** Pressing `action` toggles the cells the precomputed table lists for
      it, which are the ones `ChangeElements` gives. */
    function Result(state: State, action: int): (next: State)
      requires Valid() && 0 <= action < n * n
      ensures next == Toggle(state, ChangeElements(action, n))
    {
      Toggle(state, transformMap[action])
    }

    /** The goal is reached exactly when every one of the `n * n` cells is on. */
    function GoalTest(state: State): (reached: bool)
      requires Valid()
      ensures reached <==> |state| == n * n && forall i :: 0 <= i < |state| ==> state[i] == 1
    {
      state == goal
    }

    predicate IsAction(a: int) {
      0 <= a < n * n
    }

    /** The state reached from `state` by pressing the cells `acts` in order. */
    function Replay(state: State, acts: seq<int>): (last: State)
      requires Valid() && forall k :: 0 <= k < |acts| ==> IsAction(acts[k])
      ensures |last| == |state|
      ensures IsBinary(state) ==> IsBinary(last)
      decreases |acts|
    {
      if acts == [] then state
      else
        var earlier := acts[..|acts| - 1];
        assert forall k :: 0 <= k < |earlier| ==> earlier[k] == acts[k];
        var a := acts[|acts| - 1];
        assert IsAction(a);
        Result(Replay(state, earlier), a)
    }
  }

  /** Pressing one more cell after a list of presses. */
  lemma ReplayLast(p: ToggleProblem, s: State, acts: seq<int>, a: int)
    requires p.Valid() && p.IsAction(a) && forall k :: 0 <= k < |acts| ==> p.IsAction(acts[k])
    ensures forall k :: 0 <= k < |acts + [a]| ==> p.IsAction((acts + [a])[k])
    ensures p.Replay(s, acts + [a]) == p.Result(p.Replay(s, acts), a)
  {
    assert (acts + [a])[..|acts|] == acts;
  }

  /** Replaying two presses gives the same state in either order. */
  lemma ReplayPairOrderIndependent(p: ToggleProblem, s: State, a: int, b: int)
    requires p.Valid() && p.IsAction(a) && p.IsAction(b)
    ensures p.Replay(s, [a, b]) == p.Replay(s, [b, a])
  {
    assert [a, b][..1] == [a] && [a][..0] == [];
    assert [b, a][..1] == [b] && [b][..0] == [];
    ResultCommutes(p, s, a, b);
  }

  /** The problem for `initial` on a board of side `n`. */
  function NewProblem(initial: State, n: nat): (p: ToggleProblem)
    requires |initial| == n * n
    ensures p.Valid() && p.initial == initial && p.n == n
    ensures p.goal == AllOnes(|initial|)
  {
    ToggleProblem(initial, AllOnes(|initial|), n, BuildTransformMap(n), Range(|initial|))
  }

  /** On a 0/1 state, pressing the same cell twice undoes the first press. */
  lemma ResultInvolution(p: ToggleProblem, s: State, a: int)
    requires p.Valid() && p.IsAction(a) && IsBinary(s)
    ensures p.Result(p.Result(s, a), a) == s
  {
    ToggleInvolution(s, ChangeElements(a, p.n));
  }

  /** Presses commute. */
  lemma ResultCommutes(p: ToggleProblem, s: State, a: int, b: int)
    requires p.Valid() && p.IsAction(a) && p.IsAction(b)
    ensures p.Result(p.Result(s, a), b) == p.Result(p.Result(s, b), a)
  {
    ToggleCommutes(s, ChangeElements(a, p.n), ChangeElements(b, p.n));
  }

  /** Pressing a cell toggles that cell and every on-board orthogonal
      neighbour, and leaves every other cell as it was. */
  lemma ResultNeighbourhood(p: ToggleProblem, s: State, a: int, j: int)
    requires p.Valid() && p.IsAction(a) && |s| == p.n * p.n && 0 <= j < |s|
    ensures p.n > 0
    ensures WithinOneStep(ToCoord(a, p.n), ToCoord(j, p.n)) ==> (p.Result(s, a)[j] == 1 <==> s[j] == 0)
    ensures !WithinOneStep(ToCoord(a, p.n), ToCoord(j, p.n)) ==> p.Result(s, a)[j] == s[j]
  {
    ChangeElementsMembers(a, p.n, j);
  }

  /** Only the goal passes the goal test among states of the board's size. */
  lemma GoalTestIsGoal(p: ToggleProblem, s: State)
    requires p.Valid()
    ensures p.GoalTest(s) <==> s == AllOnes(p.n * p.n)
  {
  }
}
