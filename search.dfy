/**
 * The two IDA* phases of cube-solver.js: dfsPhase1/dfsPhase2, a bounded
 * depth-first search that grows and shrinks one shared path, and the
 * idaStarPhase1/idaStarPhase2 drivers that raise the bound between
 * searches. The two DFS functions differ only in their move list, their
 * heuristic and their goal test, so one Dfs takes the phase as a value.
 */
module Search {
  import opened Wrappers
  import opened Cube
  import opened Goals

  /** `FOUND`: the sentinel a search returns when its path reaches the goal. */
  const FOUND: int := -1
  /** `INFINITY`: the bound returned when nothing below the depth limit is left. */
  const INFINITY: int := 10000
  const MAX_DEPTH_PHASE1: int := 10
  const MAX_DEPTH_PHASE2: int := 15
  /** `maxIterations` of both drivers. */
  const MAX_ITERATIONS: int := 50

  datatype Phase = Phase1 | Phase2

  /** The moves a phase tries, in order. */
  function Moves(phase: Phase): seq<string>
  {
    match phase
    case Phase1 => PHASE1_MOVES
    case Phase2 => PHASE2_MOVES
  }

  /** The heuristic a phase prunes with. */
  function H(phase: Phase, s: CubeState): nat
    requires WellFormed(s)
  {
    match phase
    case Phase1 => Phase1Heuristic(s)
    case Phase2 => Phase2Heuristic(s)
  }

  /** The goal a phase searches for. */
  predicate Goal(phase: Phase, s: CubeState)
  {
    match phase
    case Phase1 => IsPhase1Goal(s)
    case Phase2 => IsSolved(s)
  }

  function MaxDepth(phase: Phase): int
  {
    match phase
    case Phase1 => MAX_DEPTH_PHASE1
    case Phase2 => MAX_DEPTH_PHASE2
  }

  function Min(a: int, b: int): int
  {
    if a < b then a else b
  }

  /** The path a search appends to and removes from: a JavaScript array
      used as a stack. */
  class Path {
    var moves: seq<string>

    constructor()
      ensures moves == []
    {
      moves := [];
    }

    /** `path.push(move)`. */
    method Push(move: string)
      modifies this
      ensures moves == old(moves) + [move]
    {
      moves := moves + [move];
    }

    /** `path.pop()`: drops the last move; an empty path stays empty. */
    method Pop()
      modifies this
      ensures old(moves) != [] ==> moves == old(moves)[..|old(moves)| - 1]
      ensures old(moves) == [] ==> moves == []
    {
      if moves != [] {
        moves := moves[..|moves| - 1];
      }
    }

    /** `path.length = 0`. */
    method Clear()
      modifies this
      ensures moves == []
    {
      moves := [];
    }
  }

  /** The search tree the DFS walks: ext is a branch from state at depth
      `depth` that the search enters (depth within the limit, depth plus
      heuristic within the bound at every node, each move from the phase's
      list and not the previous move or its inverse) and that ends at a goal. */
  ghost predicate Reach(phase: Phase, s: CubeState, depth: int, bound: int, last: Option<string>,
                        ext: seq<string>, depthLimit: int)
    requires WellFormed(s)
    decreases |ext|
  {
    depth <= depthLimit && depth + H(phase, s) <= bound &&
    if ext == [] then Goal(phase, s)
    else
      ext[0] in Moves(phase) && !IsInverse(ext[0], last) &&
      Reach(phase, Moved(s, ext[0]), depth + 1, bound, Some(ext[0]), ext[1..], depthLimit)
  }

  /** The search tree below s, read as the DFS reads it: entered within
      the depth limit and the bound, and then either a goal or some move of
      the phase's list, taken in order, that leads to a subtree which has a
      goal. */
  ghost predicate HasBranch(phase: Phase, s: CubeState, depth: int, bound: int, last: Option<string>,
                            depthLimit: int)
    requires WellFormed(s)
    decreases depthLimit - depth + 1, |Moves(phase)| + 1
  {
    depth <= depthLimit && depth + H(phase, s) <= bound &&
    (Goal(phase, s) || AnyMove(phase, s, depth, bound, last, depthLimit, 0))
  }

  /** Some move from the i-th on of the phase's list is not the previous
      move or its inverse, and the subtree below it has a goal. */
  ghost predicate AnyMove(phase: Phase, s: CubeState, depth: int, bound: int, last: Option<string>,
                          depthLimit: int, i: nat)
    requires WellFormed(s) && depth <= depthLimit && i <= |Moves(phase)|
    decreases depthLimit - depth + 1, |Moves(phase)| - i
  {
    i < |Moves(phase)| &&
    ((!IsInverse(Moves(phase)[i], last) &&
      HasBranch(phase, Moved(s, Moves(phase)[i]), depth + 1, bound, Some(Moves(phase)[i]), depthLimit)) ||
     AnyMove(phase, s, depth, bound, last, depthLimit, i + 1))
  }

  /** No move of ext equals or undoes the move before it; the first one is
      compared with `last`. */
  predicate NoInverseRun(last: Option<string>, ext: seq<string>)
  {
    forall k :: 0 <= k < |ext| ==> !IsInverse(ext[k], if k == 0 then last else Some(ext[k - 1]))
  }

  /** What a found branch is: phase moves, no move undoing its predecessor,
      the goal at its end, and no longer than the bound or the depth limit
      allow. */
  lemma {:induction false} ReachSound(phase: Phase, s: CubeState, depth: int, bound: int,
                                      last: Option<string>, ext: seq<string>, depthLimit: int)
    requires WellFormed(s) && Reach(phase, s, depth, bound, last, ext, depthLimit)
    ensures Goal(phase, Apply(s, ext))
    ensures depth + |ext| <= bound && depth + |ext| <= depthLimit
    ensures forall k :: 0 <= k < |ext| ==> ext[k] in Moves(phase)
    ensures NoInverseRun(last, ext)
    decreases |ext|
  {
    if ext != [] {
      var next := Moved(s, ext[0]);
      ReachSound(phase, next, depth + 1, bound, Some(ext[0]), ext[1..], depthLimit);
      forall k | 0 <= k < |ext|
        ensures ext[k] in Moves(phase)
        ensures !IsInverse(ext[k], if k == 0 then last else Some(ext[k - 1]))
      {
        if k > 0 {
          assert ext[k] == ext[1..][k - 1];
          if k > 1 {
            assert ext[k - 1] == ext[1..][k - 2];
          }
        }
      }
    }
  }

  /** `dfsPhase1` / `dfsPhase2`: returns FOUND with the path extended by a
      branch of the search tree, or, leaving the path as it was, a bound
      above the current one, or INFINITY, once no branch exists. The source
      returns the smallest f that exceeded the bound; that minimality is not
      part of the contract. */
  method Dfs(phase: Phase, state: CubeState, depth: nat, bound: int, path: Path,
             lastMove: Option<string>, depthLimit: int) returns (r: int)
    requires WellFormed(state)
    modifies path
    ensures r == FOUND ==>
      |path.moves| >= |old(path.moves)| && path.moves[..|old(path.moves)|] == old(path.moves) &&
      Reach(phase, state, depth, bound, lastMove, path.moves[|old(path.moves)|..], depthLimit)
    ensures r != FOUND ==> path.moves == old(path.moves)
    ensures r != FOUND ==> r > bound || r == INFINITY
    ensures r != FOUND ==> !HasBranch(phase, state, depth, bound, lastMove, depthLimit)
    ensures Goal(phase, state) && depth <= depthLimit && depth + H(phase, state) <= bound ==>
      r == FOUND && path.moves == old(path.moves)
    decreases depthLimit - depth + 1, 3
  {
    if depth > depthLimit {
      OutsideNoBranch(phase, state, depth, bound, lastMove, depthLimit);
      return INFINITY;
    }
    var f := depth + H(phase, state);
    if f > bound {
      OutsideNoBranch(phase, state, depth, bound, lastMove, depthLimit);
      return f;
    }
    if Goal(phase, state) {
      GoalReach(phase, state, depth, bound, lastMove, depthLimit);
      assert path.moves[|path.moves|..] == [];
      return FOUND;
    }
    r := DfsMoves(phase, state, depth, bound, path, lastMove, depthLimit);
  }

  /** A node past the depth limit or the bound has no goal below it. */
  lemma OutsideNoBranch(phase: Phase, s: CubeState, depth: int, bound: int, last: Option<string>,
                        depthLimit: int)
    requires WellFormed(s) && !(depth <= depthLimit && depth + H(phase, s) <= bound)
    ensures !HasBranch(phase, s, depth, bound, last, depthLimit)
  {
  }

  /** A goal within the depth limit and the bound is the end of the empty
      branch. */
  lemma GoalReach(phase: Phase, s: CubeState, depth: int, bound: int, last: Option<string>,
                  depthLimit: int)
    requires WellFormed(s) && depth <= depthLimit && depth + H(phase, s) <= bound && Goal(phase, s)
    ensures Reach(phase, s, depth, bound, last, [], depthLimit)
  {
  }

  /** The move loop of dfsPhase1 / dfsPhase2, entered at a node within the
      depth limit and the bound that is not a goal: each move of the
      phase's list that is not the previous move or its inverse is
      descended into, in order, until one finds the goal; otherwise a bound
      above the current one, or INFINITY (the source keeps the smallest
      bound reported below; the contract does not state minimality). */
  method DfsMoves(phase: Phase, state: CubeState, depth: nat, bound: int, path: Path,
                  lastMove: Option<string>, depthLimit: int) returns (r: int)
    requires WellFormed(state) && depth <= depthLimit && depth + H(phase, state) <= bound
    requires !Goal(phase, state)
    modifies path
    ensures r == FOUND ==>
      |path.moves| >= |old(path.moves)| && path.moves[..|old(path.moves)|] == old(path.moves) &&
      Reach(phase, state, depth, bound, lastMove, path.moves[|old(path.moves)|..], depthLimit)
    ensures r != FOUND ==> path.moves == old(path.moves)
    ensures r != FOUND ==> r > bound || r == INFINITY
    ensures r != FOUND ==> !HasBranch(phase, state, depth, bound, lastMove, depthLimit)
    decreases depthLimit - depth + 1, 2
  {
    var minNextBound := INFINITY;
    var moves := Moves(phase);
    AnyMoveBounds(phase, state, depth, bound, lastMove, depthLimit);
    var i := 0;
    while i < |moves|
      invariant 0 <= i <= |moves|
      invariant path.moves == old(path.moves)
      invariant minNextBound > bound || minNextBound == INFINITY
      invariant HasBranch(phase, state, depth, bound, lastMove, depthLimit) ==>
                AnyMove(phase, state, depth, bound, lastMove, depthLimit, i)
    {
      var result := DfsStep(phase, state, depth, bound, path, lastMove, depthLimit, i, minNextBound);
      if result == FOUND {
        return FOUND;
      }
      minNextBound := result;
      i := i + 1;
    }
    return minNextBound;
  }

  /** One pass of the move loop: the i-th move is skipped when it equals or
      undoes the previous move, and otherwise searched below; the result is
      FOUND, or a bound above the current one that is no larger than the
      running minimum passed in. */
  method DfsStep(phase: Phase, state: CubeState, depth: nat, bound: int, path: Path,
                 lastMove: Option<string>, depthLimit: int, i: nat, minNextBound: int) returns (r: int)
    requires WellFormed(state) && depth <= depthLimit && depth + H(phase, state) <= bound
    requires i < |Moves(phase)| && (minNextBound > bound || minNextBound == INFINITY)
    modifies path
    ensures r == FOUND ==>
      |path.moves| >= |old(path.moves)| && path.moves[..|old(path.moves)|] == old(path.moves) &&
      Reach(phase, state, depth, bound, lastMove, path.moves[|old(path.moves)|..], depthLimit)
    ensures r != FOUND ==> path.moves == old(path.moves)
    ensures r != FOUND ==> r > bound || r == INFINITY
    ensures r != FOUND ==> r <= minNextBound
    ensures r != FOUND ==>
      (AnyMove(phase, state, depth, bound, lastMove, depthLimit, i) ==>
       AnyMove(phase, state, depth, bound, lastMove, depthLimit, i + 1))
    decreases depthLimit - depth + 1, 1
  {
    if !IsInverse(Moves(phase)[i], lastMove) {
      var result := Descend(phase, state, depth, bound, path, lastMove, depthLimit, i);
      if result == FOUND {
        return FOUND;
      }
      r := Min(minNextBound, result);
    } else {
      AnyMoveSkipped(phase, state, depth, bound, lastMove, depthLimit, i);
      r := minNextBound;
    }
  }

  /** One turn of the DFS loop: push the move, search below it, and pop it
      again unless the search below found the goal. */
  method Descend(phase: Phase, state: CubeState, depth: nat, bound: int, path: Path,
                 lastMove: Option<string>, depthLimit: int, i: nat) returns (r: int)
    requires WellFormed(state) && depth <= depthLimit && depth + H(phase, state) <= bound
    requires i < |Moves(phase)| && !IsInverse(Moves(phase)[i], lastMove)
    modifies path
    ensures r == FOUND ==>
      |path.moves| >= |old(path.moves)| && path.moves[..|old(path.moves)|] == old(path.moves) &&
      Reach(phase, state, depth, bound, lastMove, path.moves[|old(path.moves)|..], depthLimit)
    ensures r != FOUND ==> path.moves == old(path.moves)
    ensures r != FOUND ==> r > bound || r == INFINITY
    ensures r != FOUND ==>
      (AnyMove(phase, state, depth, bound, lastMove, depthLimit, i) ==>
       AnyMove(phase, state, depth, bound, lastMove, depthLimit, i + 1))
    decreases depthLimit - depth + 1, 0
  {
    var move := Moves(phase)[i];
    ghost var before := path.moves;
    var nextState := ApplyMove(state, move);
    path.Push(move);
    ghost var pushed := path.moves;
    r := Dfs(phase, nextState, depth + 1, bound, path, Some(move), depthLimit);
    if r == FOUND {
      FoundBranch(phase, state, depth, bound, lastMove, move, before, pushed, path.moves, depthLimit);
      return;
    }
    path.Pop();
    assert (before + [move])[..|before|] == before;
    AnyMoveNoBranch(phase, state, depth, bound, lastMove, depthLimit, i);
  }

  /** A branch found below move m extends to a branch from the state above. */
  lemma FoundBranch(phase: Phase, s: CubeState, depth: int, bound: int, last: Option<string>,
                    m: string, before: seq<string>, pushed: seq<string>, after: seq<string>, depthLimit: int)
    requires WellFormed(s)
    requires depth <= depthLimit && depth + H(phase, s) <= bound
    requires m in Moves(phase) && !IsInverse(m, last)
    requires pushed == before + [m]
    requires |after| >= |pushed| && after[..|pushed|] == pushed
    requires Reach(phase, Moved(s, m), depth + 1, bound, Some(m), after[|pushed|..], depthLimit)
    ensures |after| >= |before| && after[..|before|] == before
    ensures Reach(phase, s, depth, bound, last, after[|before|..], depthLimit)
  {
    var ext := after[|before|..];
    assert after[..|before|] == after[..|before| + 1][..|before|];
    assert ext[0] == after[..|before| + 1][|before|];
    assert ext[1..] == after[|before| + 1..];
  }


  // ---------------------------------------------------------------------
  // The search tree has a goal exactly when some branch reaches one
  // ---------------------------------------------------------------------

  /** A later move with a goal below it is also found from an earlier
      position in the move list. */
  lemma {:induction false} AnyMoveFrom(phase: Phase, s: CubeState, depth: int, bound: int,
                                       last: Option<string>, depthLimit: int, i: nat, j: nat)
    requires WellFormed(s) && depth <= depthLimit
    requires i <= j <= |Moves(phase)| && AnyMove(phase, s, depth, bound, last, depthLimit, j)
    ensures AnyMove(phase, s, depth, bound, last, depthLimit, i)
    decreases j - i
  {
    if i < j {
      AnyMoveFrom(phase, s, depth, bound, last, depthLimit, i + 1, j);
      AnyMoveLater(phase, s, depth, bound, last, depthLimit, i);
    }
  }

  /** A goal below a later move is also one found from the move before it. */
  lemma AnyMoveLater(phase: Phase, s: CubeState, depth: int, bound: int,
                     last: Option<string>, depthLimit: int, i: nat)
    requires WellFormed(s) && depth <= depthLimit && i < |Moves(phase)|
    ensures AnyMove(phase, s, depth, bound, last, depthLimit, i + 1) ==>
            AnyMove(phase, s, depth, bound, last, depthLimit, i)
  {
  }

  /** At a node that is not a goal, a goal below it means one below some
      move of the list; none is found past the end of the list. */
  lemma AnyMoveBounds(phase: Phase, s: CubeState, depth: int, bound: int, last: Option<string>,
                      depthLimit: int)
    requires WellFormed(s) && depth <= depthLimit && !Goal(phase, s)
    ensures HasBranch(phase, s, depth, bound, last, depthLimit) ==>
            AnyMove(phase, s, depth, bound, last, depthLimit, 0)
    ensures !AnyMove(phase, s, depth, bound, last, depthLimit, |Moves(phase)|)
  {
  }

  /** A move that is skipped passes the search on to the next move of the
      list. */
  lemma AnyMoveSkipped(phase: Phase, s: CubeState, depth: int, bound: int,
                       last: Option<string>, depthLimit: int, i: nat)
    requires WellFormed(s) && depth <= depthLimit && i < |Moves(phase)|
    requires IsInverse(Moves(phase)[i], last)
    ensures AnyMove(phase, s, depth, bound, last, depthLimit, i) ==>
            AnyMove(phase, s, depth, bound, last, depthLimit, i + 1)
  {
  }

  /** A move with no goal below it passes the search on to the next move
      of the list. */
  lemma AnyMoveNoBranch(phase: Phase, s: CubeState, depth: int, bound: int,
                        last: Option<string>, depthLimit: int, i: nat)
    requires WellFormed(s) && depth <= depthLimit && i < |Moves(phase)|
    requires !HasBranch(phase, Moved(s, Moves(phase)[i]), depth + 1, bound, Some(Moves(phase)[i]), depthLimit)
    ensures AnyMove(phase, s, depth, bound, last, depthLimit, i) ==>
            AnyMove(phase, s, depth, bound, last, depthLimit, i + 1)
  {
  }

  /** Every branch is a witness that the search tree has a goal. */
  lemma {:induction false} ReachGivesBranch(phase: Phase, s: CubeState, depth: int, bound: int,
                                            last: Option<string>, ext: seq<string>, depthLimit: int)
    requires WellFormed(s) && Reach(phase, s, depth, bound, last, ext, depthLimit)
    ensures HasBranch(phase, s, depth, bound, last, depthLimit)
    decreases |ext|
  {
    if ext != [] && !Goal(phase, s) {
      var m := ext[0];
      ReachGivesBranch(phase, Moved(s, m), depth + 1, bound, Some(m), ext[1..], depthLimit);
      var j :| 0 <= j < |Moves(phase)| && Moves(phase)[j] == m;
      assert AnyMove(phase, s, depth, bound, last, depthLimit, j);
      AnyMoveFrom(phase, s, depth, bound, last, depthLimit, 0, j);
    }
  }

  /** A search tree with a goal has a branch to it. */
  lemma {:induction false} BranchGivesReach(phase: Phase, s: CubeState, depth: int, bound: int,
                                            last: Option<string>, depthLimit: int) returns (ext: seq<string>)
    requires WellFormed(s) && HasBranch(phase, s, depth, bound, last, depthLimit)
    ensures Reach(phase, s, depth, bound, last, ext, depthLimit)
    decreases depthLimit - depth + 1, |Moves(phase)| + 1
  {
    if Goal(phase, s) {
      ext := [];
    } else {
      ext := AnyMoveGivesReach(phase, s, depth, bound, last, depthLimit, 0);
    }
  }

  /** A move from the i-th on with a goal below it starts a branch. */
  lemma {:induction false} AnyMoveGivesReach(phase: Phase, s: CubeState, depth: int, bound: int,
                                             last: Option<string>, depthLimit: int, i: nat)
    returns (ext: seq<string>)
    requires WellFormed(s) && depth <= depthLimit && depth + H(phase, s) <= bound && i <= |Moves(phase)|
    requires AnyMove(phase, s, depth, bound, last, depthLimit, i)
    ensures ext != [] && Reach(phase, s, depth, bound, last, ext, depthLimit)
    decreases depthLimit - depth + 1, |Moves(phase)| - i
  {
    var m := Moves(phase)[i];
    if !IsInverse(m, last) && HasBranch(phase, Moved(s, m), depth + 1, bound, Some(m), depthLimit) {
      var rest := BranchGivesReach(phase, Moved(s, m), depth + 1, bound, Some(m), depthLimit);
      ext := [m] + rest;
      assert ext[1..] == rest;
    } else {
      ext := AnyMoveGivesReach(phase, s, depth, bound, last, depthLimit, i + 1);
    }
  }

  // ---------------------------------------------------------------------
  // The IDA* drivers
  // ---------------------------------------------------------------------

  /** What a driver returns: moves of the phase's list, none equal to or
      undoing its predecessor, ending at the phase's goal. */
  predicate Solves(phase: Phase, start: CubeState, moves: seq<string>)
    requires WellFormed(start)
  {
    (forall k :: 0 <= k < |moves| ==> moves[k] in Moves(phase)) &&
    NoInverseRun(None, moves) && Goal(phase, Apply(start, moves))
  }

  /** At a goal the phase's heuristic is 0. */
  lemma GoalHeuristicZero(phase: Phase, s: CubeState)
    requires WellFormed(s) && Goal(phase, s)
    ensures H(phase, s) == 0
  {
    match phase
    case Phase1 => Phase1HeuristicBounds(s);
    case Phase2 => IsSolvedMeans(s); Phase2HeuristicBounds(s);
  }

  /** `idaStarPhase1` / `idaStarPhase2`: starting from the larger of the
      heuristic and 1, search with the current bound and raise it to the
      value the search returns, for at most MAX_ITERATIONS rounds and while
      the bound stays below the phase's depth limit. A returned path solves
      the phase in fewer moves than the limit; a start already at the goal
      gives the empty path. */
  method IdaStar(phase: Phase, start: CubeState) returns (r: Option<seq<string>>)
    requires WellFormed(start)
    ensures r.Some? ==> Solves(phase, start, r.value) && |r.value| < MaxDepth(phase)
    ensures Goal(phase, start) ==> r == Some([])
  {
    var bound := Max(H(phase, start), 1);
    if Goal(phase, start) {
      GoalHeuristicZero(phase, start);
    }
    var path := new Path();
    var iterations := 0;
    while iterations < MAX_ITERATIONS && bound < MaxDepth(phase)
      invariant Goal(phase, start) ==> iterations == 0 && bound == 1 && H(phase, start) == 0
      decreases MAX_ITERATIONS - iterations
    {
      iterations := iterations + 1;
      path.Clear();
      var result := Dfs(phase, start, 0, bound, path, None, MaxDepth(phase));
      if result == FOUND {
        assert path.moves[0..] == path.moves;
        ReachSound(phase, start, 0, bound, None, path.moves, MaxDepth(phase));
        return Some(path.moves);
      }
      if result >= INFINITY {
        return None;
      }
      bound := result;
      if bound > MaxDepth(phase) {
        break;
      }
    }
    return None;
  }

  /** `idaStarPhase1`: at most nine moves of PHASE1_MOVES reaching the
      phase-1 goal. */
  method IdaStarPhase1(start: CubeState) returns (r: Option<seq<string>>)
    requires WellFormed(start)
    ensures r.Some? ==> (forall k :: 0 <= k < |r.value| ==> r.value[k] in PHASE1_MOVES) &&
                        NoInverseRun(None, r.value) && IsPhase1Goal(Apply(start, r.value)) &&
                        |r.value| < MAX_DEPTH_PHASE1
    ensures IsPhase1Goal(start) ==> r == Some([])
  {
    r := IdaStar(Phase1, start);
  }

  /** `idaStarPhase2`: at most fourteen moves of PHASE2_MOVES reaching the
      solved state. */
  method IdaStarPhase2(start: CubeState) returns (r: Option<seq<string>>)
    requires WellFormed(start)
    ensures r.Some? ==> (forall k :: 0 <= k < |r.value| ==> r.value[k] in PHASE2_MOVES) &&
                        NoInverseRun(None, r.value) && IsSolved(Apply(start, r.value)) &&
                        |r.value| < MAX_DEPTH_PHASE2
    ensures IsSolved(start) ==> r == Some([])
  {
    r := IdaStar(Phase2, start);
  }
}
