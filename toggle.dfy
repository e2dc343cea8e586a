/** Board states: one byte per cell, row-major, where a cell is "on" when its
    byte is 1; pressing produces a fresh state and never changes its input. */
module ToggleState {

  type Byte = x: int | 0 <= x < 256

  type State = seq<Byte>

  /** Every cell holds 0 or 1. */
  predicate IsBinary(s: State) {
    forall i :: 0 <= i < |s| ==> s[i] == 0 || s[i] == 1
  }

  /** A toggled cell: a zero byte becomes 1 and any nonzero byte becomes 0,
      as Python's `0 if state[i] else 1` does. */
  function Flip(v: Byte): Byte {
    if v != 0 then 0 else 1
  }

  /** The new state after toggling every index listed in `elements`; indices
      not listed, and listed indices outside the state, change nothing. */
  function Toggle(state: State, elements: seq<int>): (next: State)
    ensures |next| == |state|
    ensures forall i :: 0 <= i < |state| && i in elements ==> (next[i] == 1 <==> state[i] == 0)
    ensures forall i :: 0 <= i < |state| && i in elements ==> next[i] == 0 || next[i] == 1
    ensures forall i :: 0 <= i < |state| && i !in elements ==> next[i] == state[i]
    ensures IsBinary(state) ==> IsBinary(next)
  {
    seq(|state|, i requires 0 <= i < |state| => if i !in elements then state[i] else Flip(state[i]))
  }

  /** On a 0/1 state, toggling the same cells twice gives back the state. */
  lemma ToggleInvolution(s: State, elements: seq<int>)
    requires IsBinary(s)
    ensures Toggle(Toggle(s, elements), elements) == s
  {
  }

  /** On a 0/1 state, a toggled cell takes the other of the two values. */
  lemma ToggleComplements(s: State, elements: seq<int>, i: int)
    requires IsBinary(s) && 0 <= i < |s| && i in elements
    ensures Toggle(s, elements)[i] == 1 - s[i]
  {
  }

  /** The order of two presses does not matter. */
  lemma ToggleCommutes(s: State, e1: seq<int>, e2: seq<int>)
    ensures Toggle(Toggle(s, e1), e2) == Toggle(Toggle(s, e2), e1)
  {
  }

  /** Outside 0/1 states toggling twice does not restore the state: a cell
      holding 2 comes back as 1. */
  lemma ToggleTwiceNormalises(s: State, elements: seq<int>, i: int)
    requires 0 <= i < |s| && i in elements
    ensures Toggle(Toggle(s, elements), elements)[i] == (if s[i] == 0 then 0 else 1)
  {
  }
}
