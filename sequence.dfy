/** The index arithmetic of the `.skip` button handler in
    `createSequenceControls` (js/main.js): forward and reverse steps over the
    seven slider positions, wrapping at the hard-coded bound 6. */
module Sequence {

  /** Highest slider position, written as a literal in the handler. */
  const LastIndex: int := 6

  /** Number of slider positions, 0 through `LastIndex`. */
  const Positions: int := LastIndex + 1

  /** `index++; index = index > 6 ? 0 : index;` */
  function StepForward(index: int): (r: int)
    ensures -1 <= index <= LastIndex ==> 0 <= r <= LastIndex
    ensures 0 <= index <= LastIndex ==> r == (index + 1) % Positions
  {
    var next := index + 1;
    if next > LastIndex then 0 else next
  }

  /** `index--; index = index < 0 ? 6 : index;` */
  function StepReverse(index: int): (r: int)
    ensures 0 <= index <= LastIndex + 1 ==> 0 <= r <= LastIndex
    ensures 0 <= index <= LastIndex ==> r == (index - 1 + Positions) % Positions
  {
    var next := index - 1;
    if next < 0 then LastIndex else next
  }

  /** The new index after a click on the `.skip` button with the given id:
      "forward" steps forward, "reverse" steps back, any other id leaves
      the index as it was. */
  function NextIndex(id: string, index: int): (r: int)
    ensures 0 <= index <= LastIndex ==> 0 <= r <= LastIndex
  {
    if id == "forward" then StepForward(index)
    else if id == "reverse" then StepReverse(index)
    else index
  }

  /** Stepping forward then back returns to the start. */
  lemma ForwardThenReverse(index: int)
    requires 0 <= index <= LastIndex
    ensures StepReverse(StepForward(index)) == index
  {
  }

  /** Stepping back then forward returns to the start. */
  lemma ReverseThenForward(index: int)
    requires 0 <= index <= LastIndex
    ensures StepForward(StepReverse(index)) == index
  {
  }

  /** The index reached after `n` forward clicks. */
  function ForwardSteps(index: int, n: nat): int
  {
    if n == 0 then index else StepForward(ForwardSteps(index, n - 1))
  }

  /** The index reached after `n` reverse clicks. */
  function ReverseSteps(index: int, n: nat): int
  {
    if n == 0 then index else StepReverse(ReverseSteps(index, n - 1))
  }

  /** One forward step from a residue modulo seven gives the next residue. */
  lemma StepForwardModulo(x: int)
    ensures StepForward(x % Positions) == (x + 1) % Positions
  {
    var m, q := x % Positions, x / Positions;
    assert x == Positions * q + m && 0 <= m < Positions;
    if m == LastIndex {
      assert x + 1 == Positions * (q + 1) + 0;
    } else {
      assert x + 1 == Positions * q + (m + 1);
    }
  }

  /** One reverse step from a residue modulo seven gives the previous residue. */
  lemma StepReverseModulo(x: int)
    ensures StepReverse(x % Positions) == (x - 1) % Positions
  {
    var m, q := x % Positions, x / Positions;
    assert x == Positions * q + m && 0 <= m < Positions;
    if m == 0 {
      assert x - 1 == Positions * (q - 1) + LastIndex;
    } else {
      assert x - 1 == Positions * q + (m - 1);
    }
  }

  /** `n` forward clicks advance the index by `n` positions modulo seven. */
  lemma {:induction false} ForwardStepsModulo(index: int, n: nat)
    requires 0 <= index <= LastIndex
    ensures ForwardSteps(index, n) == (index + n) % Positions
  {
    if n == 0 {
      assert index % Positions == index;
    } else {
      ForwardStepsModulo(index, n - 1);
      StepForwardModulo(index + (n - 1));
    }
  }

  /** `n` reverse clicks move the index back by `n` positions modulo seven. */
  lemma {:induction false} ReverseStepsModulo(index: int, n: nat)
    requires 0 <= index <= LastIndex
    ensures ReverseSteps(index, n) == (index - n) % Positions
  {
    if n == 0 {
      assert index % Positions == index;
    } else {
      ReverseStepsModulo(index, n - 1);
      StepReverseModulo(index - (n - 1));
    }
  }

  /** Seven consecutive forward clicks, or seven reverse clicks, bring the
      index back to where it started. */
  lemma FullCycle(index: int)
    requires 0 <= index <= LastIndex
    ensures ForwardSteps(index, 7) == index
    ensures ReverseSteps(index, 7) == index
  {
    ForwardStepsModulo(index, 7);
    assert (index + 7) % Positions == index;
    ReverseStepsModulo(index, 7);
    assert (index - 7) % Positions == index;
  }
}
