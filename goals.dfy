/**
 * Goal tests, heuristics and move lists of cube-solver.js: isSolved,
 * isPhase1Goal, phase1Heuristic, phase2Heuristic, isInverse, PHASE1_MOVES
 * and PHASE2_MOVES.
 */
module Goals {
  import opened Wrappers
  import opened Objects
  import opened Cube

  /** `PHASE1_MOVES`: all eighteen table entries, in table order. */
  const PHASE1_MOVES: seq<string> :=
    ["U", "U'", "U2", "D", "D'", "D2", "L", "L'", "L2", "R", "R'", "R2", "F", "F'", "F2", "B", "B'", "B2"]

  /** `PHASE2_MOVES`: the U/D turns and the half turns of the four sides. */
  const PHASE2_MOVES: seq<string> := ["U", "U'", "U2", "D", "D'", "D2", "L2", "R2", "F2", "B2"]

  /** The slice edges and the middle-layer positions of isPhase1Goal. */
  const SLICE_EDGES: seq<int> := [4, 5, 6, 7]
  const MIDDLE_POSITIONS: seq<int> := [4, 5, 6, 7]

  /** `isSolved`: equal to a fresh `new CubeState()`. */
  predicate IsSolved(s: CubeState)
  {
    Equals(s, Solved())
  }

  /** A solved state has every piece at its own position, untwisted and
      unflipped, and nothing else is solved. */
  lemma IsSolvedMeans(s: CubeState)
    ensures IsSolved(s) <==>
      WellFormed(s) &&
      (forall i :: 0 <= i < 8 ==> s.cornerPerm[i] == i && s.cornerOri[i] == 0) &&
      (forall i :: 0 <= i < 12 ==> s.edgePerm[i] == i && s.edgeOri[i] == 0)
  {
    var solved := Solved();
    if WellFormed(s) && (forall i :: 0 <= i < 8 ==> s.cornerPerm[i] == i && s.cornerOri[i] == 0) &&
       (forall i :: 0 <= i < 12 ==> s.edgePerm[i] == i && s.edgeOri[i] == 0) {
      assert s.cornerPerm == solved.cornerPerm && s.edgePerm == solved.edgePerm;
      assert s.cornerOri == solved.cornerOri && s.edgeOri == solved.edgeOri;
    }
  }

  /** True when every entry is 0 (`!a.some(o => o !== 0)`). */
  predicate AllZero(a: seq<int>)
  {
    forall i :: 0 <= i < |a| ==> a[i] == 0
  }

  /** `isPhase1Goal`: no twisted corner, no flipped edge, and the first
      occurrence of each slice edge lies in a middle-layer position. */
  predicate IsPhase1Goal(s: CubeState)
  {
    AllZero(s.cornerOri) && AllZero(s.edgeOri) &&
    forall k :: 0 <= k < |SLICE_EDGES| ==> IndexOf(s.edgePerm, SLICE_EDGES[k]) in MIDDLE_POSITIONS
  }

  /** `a.filter(o => o !== 0).length`. */
  function CountNonZero(a: seq<int>): (n: nat)
    ensures n <= |a|
    ensures n == 0 <==> AllZero(a)
  {
    if a == [] then 0
    else CountNonZero(a[..|a| - 1]) + (if a[|a| - 1] != 0 then 1 else 0)
  }

  /** The number of the given slice edges whose first position is not a
      middle-layer position (the `sliceDist` loop). */
  function SliceDist(edgePerm: seq<int>, edges: seq<int>): (n: nat)
    ensures n <= |edges|
    ensures n == 0 <==> forall k :: 0 <= k < |edges| ==> IndexOf(edgePerm, edges[k]) in MIDDLE_POSITIONS
  {
    if edges == [] then 0
    else
      SliceDist(edgePerm, edges[..|edges| - 1]) +
      (if IndexOf(edgePerm, edges[|edges| - 1]) in MIDDLE_POSITIONS then 0 else 1)
  }

  /** `Math.ceil(x / d)` for a natural x and a positive d. */
  function CeilDiv(x: nat, d: nat): nat
    requires d > 0
  {
    (x + d - 1) / d
  }

  function Max(a: int, b: int): int
  {
    if a < b then b else a
  }

  /** `phase1Heuristic`: the largest of half the twisted corners, half the
      flipped edges and half the misplaced slice edges, each rounded up.
      */
  function Phase1Heuristic(s: CubeState): nat
    requires WellFormed(s)
  {
    var cornerDist := CountNonZero(s.cornerOri);
    var edgeDist := CountNonZero(s.edgeOri);
    var sliceDist := SliceDist(s.edgePerm, SLICE_EDGES);
    Max(Max(CeilDiv(cornerDist, 2), CeilDiv(edgeDist, 2)), CeilDiv(sliceDist, 2))
  }

  /** The phase-1 heuristic never exceeds 6 and is 0 exactly at the
      phase-1 goal. */
  lemma Phase1HeuristicBounds(s: CubeState)
    requires WellFormed(s)
    ensures Phase1Heuristic(s) <= 6
    ensures Phase1Heuristic(s) == 0 <==> IsPhase1Goal(s)
  {
  }

  /** The number of positions i of a whose entry is not i. */
  function Misplaced(a: seq<int>): (n: nat)
    ensures n <= |a|
    ensures n == 0 <==> forall i :: 0 <= i < |a| ==> a[i] == i
  {
    if a == [] then 0
    else Misplaced(a[..|a| - 1]) + (if a[|a| - 1] != |a| - 1 then 1 else 0)
  }

  /** `phase2Heuristic`: the larger of a quarter of the misplaced corners and
      a quarter of the misplaced edges, rounded up. */
  function Phase2Heuristic(s: CubeState): nat
    requires WellFormed(s)
  {
    Max(CeilDiv(Misplaced(s.cornerPerm), 4), CeilDiv(Misplaced(s.edgePerm), 4))
  }

  /** The phase-2 heuristic never exceeds 3 and is 0 exactly when both
      permutation arrays are the identity. */
  lemma Phase2HeuristicBounds(s: CubeState)
    requires WellFormed(s)
    ensures Phase2Heuristic(s) <= 3
    ensures Phase2Heuristic(s) == 0 <==>
      (forall i :: 0 <= i < 8 ==> s.cornerPerm[i] == i) && (forall i :: 0 <= i < 12 ==> s.edgePerm[i] == i)
  {
  }

  /** The `inverses` object of isInverse, verbatim, in source order. */
  const INVERSES: seq<(string, string)> := [
      ("U", "U'"), ("U'", "U"), ("U2", "U2"),
      ("D", "D'"), ("D'", "D"), ("D2", "D2"),
      ("L", "L'"), ("L'", "L"), ("L2", "L2"),
      ("R", "R'"), ("R'", "R"), ("R2", "R2"),
      ("F", "F'"), ("F'", "F"), ("F2", "F2"),
      ("B", "B'"), ("B'", "B"), ("B2", "B2")
    ]

  /** `inverses[move]`. */
  function InverseOf(move: string): Option<string>
  {
    Lookup(INVERSES, move)
  }

  /** The eighteen keys of `inverses` are distinct. */
  lemma InversesKeysDistinct()
    ensures DistinctKeys(INVERSES)
  {
    var keys := InversesKeys();
    TokensDistinct(keys);
    DistinctKeysBy(INVERSES, keys);
  }

  /** The keys of `inverses`, in order. */
  lemma InversesKeys() returns (keys: seq<string>)
    ensures keys == ["U", "U'", "U2", "D", "D'", "D2", "L", "L'", "L2", "R", "R'", "R2", "F", "F'", "F2", "B", "B'", "B2"]
    ensures |INVERSES| == |keys| && forall i :: 0 <= i < |INVERSES| ==> INVERSES[i].0 == keys[i]
  {
    keys := ["U", "U'", "U2", "D", "D'", "D2", "L", "L'", "L2", "R", "R'", "R2", "F", "F'", "F2", "B", "B'", "B2"];
  }

  /** Each entry of `inverses` is what its key reads. */
  lemma InverseOfAt(i: int)
    requires 0 <= i < |INVERSES|
    ensures InverseOf(INVERSES[i].0) == Some(INVERSES[i].1)
  {
    InversesKeysDistinct();
    LookupAt(INVERSES, i);
  }

  /** `isInverse(move1, move2)`: false when move2 is falsy (no previous
      move, `null`, or the empty string), otherwise whether move2 is move1's
      table inverse or move1 itself. */
  function IsInverse(move1: string, move2: Option<string>): bool
  {
    move2.Some? && move2.value != "" && (InverseOf(move1) == Some(move2.value) || move1 == move2.value)
  }
}
