/**
 * `solveCube` of cube-solver.js: the phase-1 search from the scrambled
 * state, then the phase-2 search from where phase 1 ends, joined into one
 * move list; `null` (None) when either phase finds nothing or only the
 * empty path.
 */
module Solver {
  import opened Wrappers
  import opened Cube
  import opened Goals
  import opened MoveFacts
  import opened Search

  /** The state `applyScramble(scramble)` builds. */
  function Scrambled(scramble: string): CubeState
  {
    Apply(Solved(), ParseScramble(scramble))
  }

  /** `solveCube`. A returned list is a non-empty phase-1 part of
      PHASE1_MOVES that ends at the phase-1 goal, followed by a non-empty
      phase-2 part of PHASE2_MOVES, and it solves the scrambled state. A
      scramble that already meets the phase-1 goal gets no solution,
      because phase 1 then returns the empty path. */
  method SolveCube(scramble: string) returns (r: Option<seq<string>>)
    ensures r.Some? ==> IsSolved(Apply(Scrambled(scramble), r.value))
    ensures r.Some? ==>
      exists n :: 0 < n < |r.value| &&
        IsPhase1Goal(Apply(Scrambled(scramble), r.value[..n])) &&
        (forall k :: 0 <= k < n ==> r.value[k] in PHASE1_MOVES) &&
        (forall k :: n <= k < |r.value| ==> r.value[k] in PHASE2_MOVES)
    ensures IsPhase1Goal(Scrambled(scramble)) ==> r == None
  {
    var scrambledState := ApplyScramble(scramble);
    var phase1Solution := IdaStarPhase1(scrambledState);
    if phase1Solution.None? || |phase1Solution.value| == 0 {
      return None;
    }
    var phase1State := ApplyMoves(scrambledState, phase1Solution.value);
    var phase2Solution := IdaStarPhase2(phase1State);
    if phase2Solution.None? || |phase2Solution.value| == 0 {
      return None;
    }
    var p1, p2 := phase1Solution.value, phase2Solution.value;
    var fullSolution := p1 + p2;
    ApplyConcat(scrambledState, p1, p2);
    assert fullSolution[..|p1|] == p1;
    return Some(fullSolution);
  }

  /** With the move table as written, `solveCube` never returns a solution:
      a scramble that meets the phase-1 goal stops after phase 1, and any
      other has lost corner pieces, so no move list solves it. */
  method SolveCubeAlwaysFails(scramble: string) returns (r: Option<seq<string>>)
    ensures r == None
  {
    r := SolveCube(scramble);
    if r.Some? {
      ScrambleOutcome(ParseScramble(scramble), r.value);
      assert false;
    }
  }
}
