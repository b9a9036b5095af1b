# Cube solver model

This project is a Dafny model of the solver in `cube-solver.js`, a simplified
Kociemba-style two-phase Rubik's cube solver. It covers:

- the cube state (`CubeState`: corner and edge permutation arrays, corner and
  edge orientation arrays) and `equals`;
- the move table `MOVES` and `applyMove`, which copies the state, buffers the
  four affected entries and writes them back through the move's mapping;
- `applyMoves`, `parseScramble` and `applyScramble`;
- the goal tests `isSolved` and `isPhase1Goal`, the heuristics
  `phase1Heuristic` and `phase2Heuristic`, `isInverse`, and the move lists
  `PHASE1_MOVES` and `PHASE2_MOVES`;
- the IDA* drivers `idaStarPhase1`/`idaStarPhase2` and their depth-first
  searches `dfsPhase1`/`dfsPhase2`;
- the orchestrator `solveCube`;
- the fallback `solveCubeFallback`/`dfsFallback`, which searches all eighteen
  moves in a shuffled order and avoids the reversed, inverted scramble.

The move table is modelled exactly as written, and it is not a correct cube.
Every L, R, F and B row has mapping entries 4 or above. Those entries read
past the four-slot `temp` buffer, so the JavaScript writes `undefined` into
the permutation arrays. The model writes `UNDEF` (-1) there. `equals`
compares JSON texts; `undefined` becomes `null` on both sides, so that is
plain entry-by-entry equality.

The two object literals of the solver, `MOVES` and the `inverses` table of
`isInverse`, are kept as their lists of (key, value) entries in source
order. Reading `obj[key]` is the value of the entry with that key, or
`undefined` (`None`) when there is none. `isInverse(move1, move2)` is false
for a falsy `move2`: no previous move, `null` or the empty string.

The model is split into these modules:

- `Wrappers`: the `Option` type.
- `Objects`: object literals as entry lists, and reading a key.
- `Cube`: state, table, move engine, scramble text.
- `Goals`: goal tests, heuristics, inverse table, move lists.
- `MoveFacts`: what the table does to states.
- `Search`: the DFS and IDA* of both phases, over a `Phase` parameter, with a
  `Path` object standing for the shared `path` array.
- `Solver`: `solveCube`.
- `Fallback`: the fallback solver.

`applyMove` is a method that works on array copies. It is proved equal to
`Moved`, the write-by-write function, which `MovedByReading` shows equal to
the position-by-position reading `PermuteAt`. The searches are proved
against the ghost predicates `Reach` and `HasBranch`.

The main results:

- `solveCube` never returns a solution with this table.
  - A scramble made only of U/D turns (or the empty scramble) already meets
    the phase-1 goal, so phase 1 returns the empty path and the orchestrator
    answers `null`.
  - Any scramble containing an L/R/F/B turn has lost corner ids, so no move
    list solves it. A side turn applied to a permutation of the corners
    loses two distinct corner ids, the pieces in the two buffer slots its
    mapping never reads.
- The fallback never returns the reversed, inverted scramble, whatever the
  shuffle draws.
- For the empty scramble the fallback returns `null`: the bound reset
  `bound = result + 1` with `result = FOUND = -1` makes every round re-find
  the empty path.

## Model

| member | source | states |
|---|---|---|
| Cube.Solved | cube-solver.js:6-13 | the fresh state has identity permutations and all orientations 0 |
| Cube.Equals | cube-solver.js:24-29 | two states are equal exactly when all four arrays agree entry by entry |
| Cube.MovesValid | cube-solver.js:33-52 | every row of `MOVES` lists four distinct in-range positions per cycle, a mapping of length 4, and orientation rows of length 4 |
| Cube.MoveTable | cube-solver.js:56-57 | `MOVES[move]` is one of the listed rows, so every row it returns is well formed |
| Cube.MovesKeysDistinct | cube-solver.js:33-52 | no token is listed twice in `MOVES` |
| Cube.TokensDistinct | cube-solver.js:33-52 | the eighteen face-turn tokens are distinct strings |
| Cube.MovesKeys | cube-solver.js:33-52 | the keys of `MOVES`, in order, are the eighteen face-turn tokens |
| Cube.MoveTableEntry | cube-solver.js:56 | a token that `MOVES` knows is the key of one of its rows, and that row is what it reads |
| Cube.MoveTableAt | cube-solver.js:56 | each row of `MOVES` is what its own token reads |
| Objects.LookupListed | cube-solver.js:56 | a value read from an object literal is the value of an entry listed under that key |
| Objects.LookupMissing | cube-solver.js:56-57 | a key that reads `undefined` is the key of no entry |
| Objects.LookupAt | cube-solver.js:194 | with distinct keys, reading an entry's key gives that entry's value |
| Objects.DistinctKeysBy | cube-solver.js:186-193 | entries whose keys, in order, are distinct strings have distinct keys |
| Cube.IndexOf | cube-solver.js:140 | `indexOf`: -1 exactly when absent, otherwise the first position holding the value |
| Cube.JsRem | cube-solver.js:83 | JavaScript `%`: the result lies in 0..n-1 for a non-negative dividend and in -(n-1)..0 for a negative one |
| Cube.CopyOf | cube-solver.js:15-22 | `[...a]`: a fresh array holding the same entries |
| Cube.BufferRead | cube-solver.js:65 | `temp[mapping[idx]]`: the buffer slot when the index is inside the buffer, `undefined` otherwise |
| Cube.Buffer | cube-solver.js:63 | `indices.map(i => a[i])`: the entries at the listed positions, in the order listed |
| Cube.Permuted | cube-solver.js:61-76 | the array after the first k writes `a[indices[j]] = temp[mapping[j]]`, in source order; the same length as the input (entries in `Cube.PermutedEntries` and `Cube.PermutedWritten`) |
| Cube.PermuteAt | cube-solver.js:61-76 | the array after a whole cycle, read position by position: a listed position holds the buffer slot its mapping entry names, or `undefined` past the buffer, and every other position keeps its entry (equal to `Permuted` by `Cube.PermutedReading`) |
| Cube.PermutedEntries | cube-solver.js:63-65 | after the first k writes of a cycle, the positions not yet written keep their entries and the j-th written one holds `temp[mapping[j]]`, or `undefined` past the buffer |
| Cube.PermutedWritten | cube-solver.js:61-65 | after all four writes, unlisted positions keep their entries and the k-th listed one holds `temp[mapping[k]]` |
| Cube.PermuteAtByPositions | cube-solver.js:61-65 | an array that agrees with the write-by-write reading at every position is `PermuteAt` of the old array |
| Cube.PermutedReading | cube-solver.js:61-65 | the four writes in order give `PermuteAt`, the position-by-position reading |
| Cube.IndexOfDistinct | cube-solver.js:140 | in a list of distinct values, the first position of the k-th value is k |
| Cube.FillBuffer | cube-solver.js:62 | `indices.map(i => a[i])`: a fresh buffer holding the listed entries in order |
| Cube.PermuteInPlace | cube-solver.js:61-76 | buffering then writing `temp[mapping[k]]` leaves the array equal to `Permuted` of the old contents, all four writes; `Cube.PermutedReading` makes that `PermuteAt` of the old contents |
| Cube.Twisted | cube-solver.js:79-85 | the corner orientations after the first k twists `(a[i] + delta[j]) % 3`, in source order with JavaScript `%`; the same length as the input (entries in `Cube.TwistedEntries`) |
| Cube.TwistedEntries | cube-solver.js:81-84 | after the first k twists, unlisted positions keep their twist and the j-th listed one holds `(a[i] + delta[j]) % 3` |
| Cube.TwistInPlace | cube-solver.js:79-85 | the in-place corner twist loop leaves the array equal to `Twisted` of the old contents, the four writes in order |
| Cube.Flipped | cube-solver.js:88-93 | the edge orientations after the first k flips `(a[i] + 1) % 2`, in source order; the same length as the input (entries in `Cube.FlippedEntries`) |
| Cube.FlippedEntries | cube-solver.js:89-92 | after the first k flips, unlisted positions keep their flip and the j-th listed one holds `(a[i] + 1) % 2` |
| Cube.FlipInPlace | cube-solver.js:88-93 | the in-place edge flip loop leaves the array equal to `Flipped` of the old contents, the four writes in order |
| Cube.MovedBy | cube-solver.js:60-95 | the state a table row produces, written cycle by cycle and then by the orientation rows it carries; always well formed (its position-by-position reading is `Cube.MovedByReading`) |
| Cube.Moved | cube-solver.js:55-96 | `applyMove` as a function: the argument itself for a token outside the table, otherwise `MovedBy` of the listed row; always well formed (properties in `MoveFacts.MoveFrame`, `MoveFacts.UDTurnUndone` and `MoveFacts.MoveKeepsOrientationInvariants`) |
| Cube.MovedByReading | cube-solver.js:60-76 | the permutation arrays after a row are `PermuteAt` of the old ones by the row's two cycles |
| Cube.ApplyMove | cube-solver.js:55-96 | `applyMove` on a copy returns `Moved(state, move)`: the argument itself for an unknown token |
| Cube.ApplyDef | cube-solver.js:60-95 | rewriting the copy's four arrays yields `MovedBy` of the state and the entry |
| Cube.Apply | cube-solver.js:99-105 | `applyMoves` as the left fold of `Moved` over the tokens; always well formed (split over concatenation in `Cube.ApplyConcat`) |
| Cube.ApplyConcat | cube-solver.js:99-105 | applying a + b is applying a, then b |
| Cube.ApplyStep | cube-solver.js:101-103 | applying the first i + 1 tokens is applying the first i and then the i-th |
| Cube.ApplyMoves | cube-solver.js:99-105 | the loop returns the left fold `Apply(state, moves)` |
| Cube.IsJsSpace | cube-solver.js:109 | the white-space characters of `trim` and `\s`: tab, line feed, vertical tab, form feed, carriage return, space, no-break space, U+1680, U+2000 to U+200A, U+2028, U+2029, U+202F, U+205F, U+3000 and U+FEFF |
| Cube.IsToken | cube-solver.js:109 | what `split(/\s+/)` followed by `filter(m => m)` can keep: a non-empty string with no white-space character |
| Cube.WordLength | cube-solver.js:109 | the length of the leading run of non-space characters: every character before it is not white space and the one at it, if any, is |
| Cube.ParseScramble | cube-solver.js:108-110 | every token is non-empty and free of white space; an all-space text gives no tokens |
| Cube.ParseJoin | cube-solver.js:108-110 | parsing the space-joined tokens gives the tokens back |
| Cube.Join | cube-solver.js:404-405 | `join(' ')`: the tokens separated by single spaces; for non-empty tokens, as parsing produces, no leading or trailing space (inverse of parsing in `Cube.ParseJoin`) |
| Cube.ApplyScramble | cube-solver.js:113-120 | the state is the fold of the parsed tokens from the solved state |
| Goals.IsSolved | cube-solver.js:123-126 | `isSolved`: the state equals the solved state array by array (its meaning is `Goals.IsSolvedMeans`) |
| Goals.IsPhase1Goal | cube-solver.js:129-146 | `isPhase1Goal`: all orientations 0 and every slice edge first found in a middle position (preserved by U/D turns in `MoveFacts.UDTurnKeepsPhase1Goal`) |
| Goals.IsSolvedMeans | cube-solver.js:123-126 | solved exactly when every piece is at its own position with orientation 0 |
| Goals.CeilDiv | cube-solver.js:165 | `Math.ceil(x / d)` for a natural x and a positive d |
| Goals.Max | cube-solver.js:165 | `Math.max` of two integers |
| Goals.CountNonZero | cube-solver.js:151-152 | the filter count is at most the length and is 0 exactly when all entries are 0 |
| Goals.SliceDist | cube-solver.js:155-163 | at most the number of slice edges, 0 exactly when every slice edge is first found in a middle position |
| Goals.Misplaced | cube-solver.js:170-178 | at most the length, 0 exactly when the array is the identity |
| Goals.Phase1Heuristic | cube-solver.js:149-166 | `phase1Heuristic`: the largest of the twisted-corner count, the flipped-edge count and the slice distance, each halved and rounded up (range and zero set in `Goals.Phase1HeuristicBounds`) |
| Goals.Phase1HeuristicBounds | cube-solver.js:149-166 | `phase1Heuristic` lies in 0..6 and is 0 exactly at the phase-1 goal |
| Goals.InversesKeys | cube-solver.js:186-193 | the keys of `inverses`, in order, are the eighteen face-turn tokens |
| Goals.InversesKeysDistinct | cube-solver.js:186-193 | no token is listed twice in `inverses` |
| Goals.InverseOfAt | cube-solver.js:186-194 | each entry of `inverses` is what its own key reads |
| Goals.InverseOf | cube-solver.js:194 | `inverses[move1]`: the listed value for a listed key, `undefined` otherwise (values in `Goals.InverseOfAt` and `Fallback.InverseOfFaceTurns`) |
| Goals.Phase2Heuristic | cube-solver.js:168-181 | `phase2Heuristic`: the larger of the misplaced corner and edge counts, each rounded up over 4 (range and zero set in `Goals.Phase2HeuristicBounds`) |
| Goals.Phase2HeuristicBounds | cube-solver.js:168-181 | `phase2Heuristic` lies in 0..3 and is 0 exactly when both permutations are the identity |
| Goals.IsInverse | cube-solver.js:184-195 | `isInverse`: false for a missing or empty previous move, otherwise true when the move equals the previous move or is its `inverses` entry (on table moves the entry is the string inverter, `Fallback.InvertTokenIsInverse`; for U/D turns it undoes the move, `MoveFacts.UDTurnUndone`) |
| MoveFacts.TableKeys | cube-solver.js:33-57 | `MOVES[move]` is a row exactly for the tokens of PHASE1_MOVES |
| MoveFacts.PhaseOneTokens | cube-solver.js:198 | the tokens of PHASE1_MOVES are exactly the U/D turns and the side turns |
| MoveFacts.UDListed | cube-solver.js:198 | every U/D turn is in PHASE1_MOVES |
| MoveFacts.LRListed | cube-solver.js:198 | every L/R turn is in PHASE1_MOVES |
| MoveFacts.FBListed | cube-solver.js:198 | every F/B turn is in PHASE1_MOVES |
| MoveFacts.MovesOrder | cube-solver.js:33-52 | `MOVES` lists its keys in the order of PHASE1_MOVES |
| MoveFacts.InversesOrder | cube-solver.js:186-193 | `inverses` lists its keys in the order of PHASE1_MOVES |
| MoveFacts.PhaseOneOrder | cube-solver.js:198 | PHASE1_MOVES holds the six U/D turns first, then the twelve side turns |
| MoveFacts.UDEntry | cube-solver.js:34-39 | the row of a U/D turn is one of the first six rows |
| MoveFacts.SideEntry | cube-solver.js:40-51 | the row of a side turn is one of the last twelve rows |
| MoveFacts.UnknownTokenKeepsState | cube-solver.js:57-58 | a token outside the table leaves the state as it is |
| MoveFacts.PermuteAtOutside | cube-solver.js:61-76 | positions outside a cycle keep their entry |
| MoveFacts.PermuteAtListed | cube-solver.js:63-65 | the k-th listed position gets the old entry at `indices[mapping[k]]`, or `undefined` past the buffer |
| MoveFacts.PermuteAtValues | cube-solver.js:61-76 | every entry after a cycle is `undefined` or an entry from before |
| MoveFacts.PermuteAtKeepsValue | cube-solver.js:61-76 | with a mapping that reads each buffer slot once, every entry before a cycle is still present after it |
| MoveFacts.PermuteAtSameValues | cube-solver.js:61-76 | a mapping inside the buffer keeps the set of entries |
| MoveFacts.PermuteAtUndo | cube-solver.js:61-76 | a cycle followed by its inverse mapping restores the array |
| MoveFacts.PermuteAtOverflow | cube-solver.js:63-65 | a mapping entry of 4 or more writes `undefined` |
| MoveFacts.DefCornerFrame | cube-solver.js:60-85 | a row changes no corner position its corner cycle does not list |
| MoveFacts.DefEdgeFrame | cube-solver.js:68-93 | a row changes no edge position its edge cycle does not list |
| MoveFacts.MoveFrame | cube-solver.js:55-96 | only positions listed by the move's corner or edge cycle change |
| MoveFacts.UDRows | cube-solver.js:34-39 | the U/D rows read each buffer slot once, carry no orientation rows, and cycle edge window 0..3 or 4..7 |
| MoveFacts.UDRowShape | cube-solver.js:34-39 | the first six rows: equal corner and edge mappings, a quarter, inverse-quarter or half turn, no orientation rows |
| MoveFacts.QuarterTurnMappings | cube-solver.js:34-39 | the three U/D mappings each read every buffer slot once |
| MoveFacts.UDTurnUndone | cube-solver.js:34-39 | U;U', U';U, U2;U2 and the D pairs return the original state |
| MoveFacts.UDInversePair | cube-solver.js:186-188 | the `inverses` entry of a U/D turn names the row on the same positions whose mapping turns the other way |
| MoveFacts.QuarterTurnsUndo | cube-solver.js:34-39 | a quarter turn and the opposite one, or a half turn twice, read every buffer slot back into place |
| MoveFacts.DefUndo | cube-solver.js:60-76 | two rows without orientation rows, on the same positions, with mappings that undo each other, give back the state |
| MoveFacts.UDTurnKeepsPermutation | cube-solver.js:34-39 | a U/D turn keeps permutations as permutations and leaves orientations alone |
| MoveFacts.SameValuesPermutation | cube-solver.js:61-76 | an array with the same values and length as a permutation is one |
| MoveFacts.MoveNeverAddsPieces | cube-solver.js:61-76 | no move brings a defined piece id into a permutation array |
| MoveFacts.SideRowOverflows | cube-solver.js:40-51 | every L/R/F/B corner row has two mapping entries of 4 or more |
| MoveFacts.SideRowShape | cube-solver.js:40-51 | each of the last twelve rows has two corner mapping entries of 4 or more |
| MoveFacts.SideTurnDropsTwoCorners | cube-solver.js:40-51 | an L/R/F/B turn leaves two corner positions `undefined` |
| MoveFacts.DistinctValuesBound | cube-solver.js:61-76 | distinct ids all present in an array are no more than its length |
| MoveFacts.TwoHolesLoseACorner | cube-solver.js:61-76 | eight positions with two `undefined` cannot hold all eight corner ids |
| MoveFacts.PermutationInjective | cube-solver.js:6-13 | in a permutation of 0..n-1 two positions never hold the same piece id |
| MoveFacts.SideRowUnread | cube-solver.js:40-51 | each side-turn corner mapping leaves two distinct buffer slots unread: 1 and 2 for L, 0 and 3 for R, 2 and 3 for F, 0 and 1 for B |
| MoveFacts.SideMappingUnread | cube-solver.js:40-51 | the same two unread slots for the row an L/R/F/B token reads |
| MoveFacts.UnreadSlotLost | cube-solver.js:61-67 | the piece in a buffer slot no mapping entry reads is absent from the permutation after the cycle |
| MoveFacts.CycleLosesTwo | cube-solver.js:61-67 | a corner cycle with two unread slots loses two distinct corner ids of a permutation |
| MoveFacts.SideTurnLosesTwoCorners | cube-solver.js:40-67 | an L/R/F/B turn applied to a permutation of the corners loses two distinct corner ids |
| MoveFacts.MissingCornerStaysMissing | cube-solver.js:123-126 | once a corner id is lost no move list brings it back, and the state is never solved |
| MoveFacts.SliceCharacterization | cube-solver.js:136-143 | a slice edge is first found in a middle position exactly when it is absent from 0..3 and present in 4..7 |
| MoveFacts.WindowCycle | cube-solver.js:61-76 | a cycle on four consecutive positions permutes that window and keeps the rest |
| MoveFacts.WindowOutside | cube-solver.js:68-76 | a position outside a four-position window cycle keeps its entry |
| MoveFacts.WindowSlot | cube-solver.js:68-76 | the k-th position of a window cycle receives the entry its mapping names |
| MoveFacts.PermutedOff | cube-solver.js:61-65 | a position the cycle does not list keeps its entry after the four writes |
| MoveFacts.PermutedSlot | cube-solver.js:61-65 | the j-th listed position holds `temp[mapping[j]]` after the four writes |
| MoveFacts.DefEdgeWindow | cube-solver.js:68-76 | a row whose edge cycle is a window of four consecutive positions permutes that window and keeps the rest |
| MoveFacts.UDEdges | cube-solver.js:34-39 | a U/D turn permutes edge window 0..3 or 4..7 and keeps the rest |
| MoveFacts.WindowKeepsSliceHeld | cube-solver.js:136-143 | permuting one window keeps a slice edge held in the middle layer |
| MoveFacts.UDTurnKeepsPhase1Goal | cube-solver.js:129-146 | a U/D turn keeps the phase-1 goal |
| MoveFacts.SolvedIsPhase1Goal | cube-solver.js:129-146 | the solved state meets the phase-1 goal |
| MoveFacts.GoalOrMissingCorner | cube-solver.js:113-146 | from the phase-1 goal or a lost corner, every move list ends at one of the two |
| MoveFacts.ScrambleOutcome | cube-solver.js:113-146 | any scrambled state meets the phase-1 goal, or no move list solves it |
| MoveFacts.SumUpdate | cube-solver.js:79-93 | overwriting one entry changes the sum by the difference |
| MoveFacts.TwistRows | cube-solver.js:40-50 | every cornerOri row sums to 6 with entries 1 or 2 |
| MoveFacts.TwistRowShape | cube-solver.js:40-50 | every cornerOri row of the table is [1, 2, 1, 2] or [2, 1, 2, 1] |
| MoveFacts.TwistDeltas | cube-solver.js:40-50 | those two rows sum to 6 with entries 1 or 2 |
| MoveFacts.RemSplit | cube-solver.js:83 | for a non-negative dividend JavaScript `%` is the dividend less a multiple of the divisor |
| MoveFacts.TwistStep | cube-solver.js:83 | one twist keeps twists in 0..2 and adds its delta to the total, less a multiple of 3 |
| MoveFacts.TwistedTotal | cube-solver.js:79-85 | the first k twists keep twists in 0..2 and add the first k deltas to the total, less a multiple of 3 |
| MoveFacts.FlipStep | cube-solver.js:91 | one flip keeps flips in 0..1 and adds 1 to the total, less a multiple of 2 |
| MoveFacts.FlippedTotal | cube-solver.js:88-93 | the first k flips keep flips in 0..1 and add k to the total, less a multiple of 2 |
| MoveFacts.DefKeepsCornerTwists | cube-solver.js:79-85 | a table entry keeps corner orientations in range and their sum mod 3 |
| MoveFacts.DefKeepsEdgeFlips | cube-solver.js:88-93 | a table entry keeps edge orientations in range and their sum mod 2 |
| MoveFacts.MoveKeepsOrientationInvariants | cube-solver.js:55-96 | every move keeps orientations in range and the sums mod 3 and mod 2 |
| Search.Path.constructor | cube-solver.js:211 | a new path is empty |
| Search.Path.Push | cube-solver.js:254 | `path.push` appends the move |
| Search.Path.Pop | cube-solver.js:263 | `path.pop` drops the last move, and an empty path stays empty |
| Search.Path.Clear | cube-solver.js:217 | `solutionPath.length = 0` empties the path |
| Search.Reach | cube-solver.js:232-267 | a branch of the DFS tree: every node within the depth limit and the bound, each move from the phase's list and not the inverse of its predecessor, ending at the goal (unfolded in `Search.ReachSound`) |
| Search.HasBranch | cube-solver.js:232-267 | the DFS tree read in the order the DFS visits it has a goal (equivalent to a `Reach` branch by `Search.ReachGivesBranch` and `Search.BranchGivesReach`) |
| Search.ReachSound | cube-solver.js:232-267 | a branch uses the phase's moves, never undoes its predecessor, stays within bound and depth limit, and reaches the goal |
| Search.Dfs | cube-solver.js:232-328 | `dfsPhase1` and `dfsPhase2` over the phase's move list, heuristic and goal: on FOUND the path is the old path plus a branch; otherwise the path is unchanged, the result exceeds the bound or is INFINITY, and no branch exists; a goal within the limit and the bound gives FOUND |
| Search.OutsideNoBranch | cube-solver.js:233-240 | a node past the depth limit or the bound has no goal below it |
| Search.GoalReach | cube-solver.js:242-244 | a goal within the depth limit and the bound ends the empty branch |
| Search.DfsMoves | cube-solver.js:246-267 | the move loop: on FOUND the path is the old path plus a branch; otherwise the path is unchanged, the result exceeds the bound or is INFINITY, and no branch exists |
| Search.DfsStep | cube-solver.js:248-264 | one loop turn: a move equal to or undoing the previous one is skipped; on FOUND a branch was pushed; otherwise the path is unchanged, the running minimum does not grow and stays above the bound, and no branch goes through this move |
| Search.Min | cube-solver.js:262 | `Math.min` of two integers |
| Search.Descend | cube-solver.js:253-264 | push, recurse, and pop unless the goal was found; no branch below the move when not found |
| Search.FoundBranch | cube-solver.js:253-260 | a branch found below a move extends to one from the state above |
| Search.AnyMoveFrom | cube-solver.js:248-264 | a branch through a later move is a branch through the remaining moves |
| Search.AnyMoveLater | cube-solver.js:248-264 | a branch through a later move is found from the move before it |
| Search.AnyMoveBounds | cube-solver.js:246-267 | at a node that is not a goal, a goal below means one through some move of the list; none past its end |
| Search.AnyMoveSkipped | cube-solver.js:249-251 | a skipped move passes the search on to the next move of the list |
| Search.AnyMoveNoBranch | cube-solver.js:256-264 | a move with no goal below it passes the search on to the next move |
| Search.ReachGivesBranch | cube-solver.js:232-267 | every branch makes the search tree non-empty |
| Search.BranchGivesReach | cube-solver.js:232-267 | a non-empty search tree holds a branch |
| Search.AnyMoveGivesReach | cube-solver.js:248-264 | a branch through one of the remaining moves is a non-empty branch |
| Search.GoalHeuristicZero | cube-solver.js:149-181 | the heuristic is 0 at the phase's goal |
| Search.IdaStar | cube-solver.js:209-230 | a returned path solves the phase from the start, shorter than its depth limit; at the goal the path is empty |
| Search.IdaStarPhase1 | cube-solver.js:209-230 | `idaStarPhase1`: a path of PHASE1_MOVES to the phase-1 goal, shorter than 10 and with no move undoing its predecessor; empty at the goal |
| Search.IdaStarPhase2 | cube-solver.js:270-291 | `idaStarPhase2`: a path of PHASE2_MOVES to the solved state, shorter than 15 and with no move undoing its predecessor; empty when solved |
| Solver.Scrambled | cube-solver.js:113-120 | the state `applyScramble` returns: the parsed tokens applied to the solved state from left to right |
| Solver.SolveCube | cube-solver.js:331-370 | a result solves the scramble and splits into a non-empty phase-1 part ending at the phase-1 goal and a non-empty phase-2 part; `null` when the scramble already meets the phase-1 goal |
| Solver.SolveCubeAlwaysFails | cube-solver.js:331-370 | with this table `solveCube` returns `null` for every scramble |
| Fallback.RemoveFirst | cube-solver.js:383 | `replace` with a one-character pattern: one character shorter when the character occurs, unchanged otherwise |
| Fallback.RemoveFirstAt | cube-solver.js:383 | the removed character is the FIRST occurrence, and the characters before and after it are kept in order |
| Fallback.InvertToken | cube-solver.js:381-389 | the inverter: a prime loses its first prime, a half turn stays, any other token gets a prime (agrees with `inverses` on table moves, `Fallback.InvertTokenIsInverse`, and undoes itself, `Fallback.InvertTokenInvolution`) |
| Fallback.ReverseInverted | cube-solver.js:381-389 | the i-th token is the inverse of the i-th token from the end |
| Fallback.InvertFaceTurns | cube-solver.js:381-389 | the inverter swaps quarter turns with primes and keeps half turns |
| Fallback.FaceEntries | cube-solver.js:187-192 | `inverses` lists the faces in the order U, D, L, R, F, B, three entries each: quarter, prime, half |
| Fallback.InverseOfFaceTurns | cube-solver.js:186-194 | `inverses` maps each face's quarter turn to its prime, the prime back, and the half turn to itself |
| Fallback.InvertTokenIsInverse | cube-solver.js:381-389 | on table moves the inverter agrees with the `inverses` table |
| Fallback.InvertTokenInvolution | cube-solver.js:381-389 | the inverter maps table moves to table moves and undoes itself |
| Fallback.ReverseInvertedInvolution | cube-solver.js:381-389 | reversing and inverting twice gives back a list of table moves |
| Fallback.RandomSource.constructor | cube-solver.js:448 | the source starts with the given draws |
| Fallback.RandomSource.Below | cube-solver.js:448 | a draw is below its bound and consumes one supplied value |
| Fallback.Shuffle | cube-solver.js:446-450 | Fisher-Yates keeps the multiset of moves |
| Fallback.SwapKeepsMultiset | cube-solver.js:449 | swapping two entries keeps the multiset of moves |
| Fallback.RearrangedMoves | cube-solver.js:446-450 | a shuffled move list holds only table moves |
| Fallback.FallbackReach | cube-solver.js:428-481 | a branch of the fallback search tree: every node within 30 moves and the bound, each move one of the eighteen and not the previous move or its inverse, no path along it spelling a prefix of the avoided sequence, ending at the solved state |
| Fallback.FallbackReachSound | cube-solver.js:428-481 | a fallback branch uses table moves, never undoes its predecessor, stays within bound and 30 moves, and solves the cube |
| Fallback.AvoidHit | cube-solver.js:460-468 | the path, joined with spaces, spells the same-length prefix of the avoided sequence (excluded along every branch by `Fallback.FallbackReachAvoids`) |
| Fallback.FallbackReachAvoids | cube-solver.js:460-468 | no path along a fallback branch spells a prefix of the avoided sequence |
| Fallback.AvoidsExtend | cube-solver.js:460-468 | avoiding after one move and along the rest avoids along the whole branch |
| Fallback.DfsFallback | cube-solver.js:428-481 | on FOUND the path is the old path plus a fallback branch; otherwise the path is unchanged and the result exceeds the bound or is INFINITY; a solved state within bound gives FOUND |
| Fallback.DfsFallbackMoves | cube-solver.js:444-480 | the shuffled move loop: on FOUND the path is the old path plus a fallback branch; otherwise the path is unchanged and the result exceeds the bound or is INFINITY |
| Fallback.DescendFallback | cube-solver.js:452-477 | one loop turn: a move that spells an avoided prefix is popped and skipped; otherwise recurse and pop unless found |
| Fallback.FoundFallbackBranch | cube-solver.js:470-474 | a fallback branch below a move extends to one from the state above |
| Fallback.SolveCubeFallback | cube-solver.js:374-426 | for all draws, a result solves the scramble in fewer than 30 table moves, differs from the reversed, inverted scramble, and starts with a different first move; `null` when the scrambled state is solved and that sequence joins to "" |
| Fallback.EmptyScrambleFallback | cube-solver.js:398-418 | the empty scramble gives `null` for all draws, because of the bound reset at line 411 |
| Fallback.FirstMoveAvoided | cube-solver.js:461-466 | a path that avoids the one-token prefix starts with a different token |

## Left out

- script.js is not part of this model: the timer page, its DOM and keyboard
  handlers, timing, storage, random scramble generation and statistics.
- The `console.log`/`console.error` calls and the `try`/`catch` wrappers of
  `solveCube` and `solveCubeFallback` are left out. Nothing in the modelled
  code throws for string input.
- The `window` and `module.exports` wiring is left out.
- `copy` is modelled only as the array copy `Cube.CopyOf`. States are
  immutable values, so a copy of a state is the state itself. `ApplyMove`
  copies the four arrays into fresh arrays before writing.
- `Math.random` is replaced by the draws given to a `RandomSource`: a draw
  is the next supplied value modulo the bound, and 0 once the values run out.
  Every fallback property is proved for all draw sequences.
- `JSON.stringify` is replaced by comparing entries. `undefined` is the
  sentinel -1, equal only to itself.
- No cube-group identities are stated, because the table violates them:
  - a side turn applied four times is not the identity;
  - L;L is not L2;
  - PHASE2_MOVES do not keep the phase-1 goal.
- Search.IdaStar: the model does not state that the driver finds a solution
  whenever one within the depth limit exists. `Search.Dfs` does state that a
  non-FOUND result means the current bound's tree is empty, but nothing is
  claimed about optimality or about the later bounds the driver tries.
- Fallback.DfsFallback: unlike `Search.Dfs`, its non-FOUND result is not
  proved to mean that no fallback branch exists under the bound.
- Search.DfsMoves: a non-FOUND result is shown to exceed the bound (or to
  be INFINITY), not to be the smallest `f` reported below.
- Fallback.DfsFallbackMoves: a non-FOUND result is shown to exceed the
  bound (or to be INFINITY), not to be the smallest bound reported below,
  and, as for DfsFallback, not to mean that no fallback branch exists.
- Search.DfsStep: states only that the running minimum does not grow and
  stays above the bound, not that it is `Math.min` of the old minimum and
  the result below the move.
- Object literals are read by own keys only. A token such as "toString"
  would find an inherited property of `Object.prototype` in JavaScript; the
  model reads `undefined` for every token outside the listed keys.
- Running time and the size of the explored tree are not modelled.
