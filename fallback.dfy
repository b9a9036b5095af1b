/**
 * `solveCubeFallback` and `dfsFallback` of cube-solver.js: an IDA* search
 * over all eighteen moves, bounded by the phase-2 heuristic and 30 moves,
 * that tries the moves of each node in a freshly shuffled order and never
 * follows a path that spells a prefix of the scramble reversed and
 * inverted. `Math.random` is replaced by a source of draws supplied by
 * the caller.
 */
module Fallback {
  import opened Wrappers
  import opened Cube
  import opened Goals
  import opened Search
  import opened Solver

  /** `MAX_MOVES` and `maxIterations` of solveCubeFallback. */
  const MAX_MOVES: int := 30
  const MAX_FALLBACK_ITERATIONS: int := 300

  // ---------------------------------------------------------------------
  // The reversed, inverted scramble
  // ---------------------------------------------------------------------

  /** `s.replace(c, '')` for a one-character pattern: the first c removed. */
  function RemoveFirst(s: string, c: char): (r: string)
    ensures c in s ==> |r| == |s| - 1
    ensures c !in s ==> r == s
  {
    if s == [] then []
    else if s[0] == c then s[1..]
    else [s[0]] + RemoveFirst(s[1..], c)
  }

  /** The character RemoveFirst drops is the first occurrence of c, and
      the characters before and after it stay in order. */
  lemma {:induction false} RemoveFirstAt(s: string, c: char) returns (i: int)
    requires c in s
    ensures 0 <= i < |s| && s[i] == c && c !in s[..i]
    ensures RemoveFirst(s, c) == s[..i] + s[i + 1..]
  {
    if s[0] == c {
      i := 0;
    } else {
      assert c in s[1..];
      var j := RemoveFirstAt(s[1..], c);
      i := j + 1;
      assert s[..i] == [s[0]] + s[1..][..j];
      assert s[i + 1..] == s[1..][j + 1..];
    }
  }

  /** The inverter of solveCubeFallback: a token with a prime loses its
      first prime, a token with a 2 stays as it is, any other token gets a
      prime. */
  function InvertToken(move: string): string
  {
    if '\'' in move then RemoveFirst(move, '\'')
    else if '2' in move then move
    else move + "'"
  }

  /** `scrambleMoves.reverse().map(...)`: the tokens in reverse order, each
      inverted. */
  function ReverseInverted(tokens: seq<string>): (r: seq<string>)
    ensures |r| == |tokens|
    ensures forall i :: 0 <= i < |r| ==> r[i] == InvertToken(tokens[|tokens| - 1 - i])
  {
    seq(|tokens|, i requires 0 <= i < |tokens| => InvertToken(tokens[|tokens| - 1 - i]))
  }

  /** The face letters of the move table. */
  const FACES: seq<char> := ['U', 'D', 'L', 'R', 'F', 'B']

  /** The inverter on the three turns of one face: the quarter turn and
      its prime swap, the half turn stays. */
  lemma InvertFaceTurns(c: char)
    requires c in FACES
    ensures InvertToken([c]) == [c, '\'']
    ensures InvertToken([c, '\'']) == [c]
    ensures InvertToken([c, '2']) == [c, '2']
  {
    assert ['\''][1..] == [];
    assert RemoveFirst(['\''], '\'') == [];
    assert [c, '\''][1..] == ['\''];
    assert RemoveFirst([c, '\''], '\'') == [c] + RemoveFirst(['\''], '\'');
  }

  /** The `inverses` table on the three turns of one face. */
  lemma InverseOfFaceTurns(c: char)
    requires c in FACES
    ensures InverseOf([c]) == Some([c, '\''])
    ensures InverseOf([c, '\'']) == Some([c])
    ensures InverseOf([c, '2']) == Some([c, '2'])
  {
    var f :| 0 <= f < 6 && FACES[f] == c;
    FaceEntries(f);
    InverseOfAt(3 * f);
    InverseOfAt(3 * f + 1);
    InverseOfAt(3 * f + 2);
  }

  /** `inverses` lists the faces in the order of FACES, three entries each. */
  lemma FaceEntries(f: int)
    requires 0 <= f < 6
    ensures |INVERSES| == 18
    ensures INVERSES[3 * f] == ([FACES[f]], [FACES[f], '\''])
    ensures INVERSES[3 * f + 1] == ([FACES[f], '\''], [FACES[f]])
    ensures INVERSES[3 * f + 2] == ([FACES[f], '2'], [FACES[f], '2'])
  {
  }

  /** On the eighteen moves of the table the inverter is the `inverses`
      table of isInverse. */
  lemma InvertTokenIsInverse(m: string)
    requires m in PHASE1_MOVES
    ensures InverseOf(m) == Some(InvertToken(m))
  {
    var c := m[0];
    assert c in FACES;
    assert m == [c] || m == [c, '\''] || m == [c, '2'];
    InvertFaceTurns(c);
    InverseOfFaceTurns(c);
  }

  /** The inverter undoes itself on the eighteen moves of the table and
      keeps them among the eighteen. */
  lemma InvertTokenInvolution(m: string)
    requires m in PHASE1_MOVES
    ensures InvertToken(m) in PHASE1_MOVES
    ensures InvertToken(InvertToken(m)) == m
  {
    var c := m[0];
    assert c in FACES;
    InvertFaceTurns(c);
    assert m == [c] || m == [c, '\''] || m == [c, '2'];
  }

  /** Reversing and inverting twice gives back a list of table moves. */
  lemma ReverseInvertedInvolution(tokens: seq<string>)
    requires forall i :: 0 <= i < |tokens| ==> tokens[i] in PHASE1_MOVES
    ensures ReverseInverted(ReverseInverted(tokens)) == tokens
  {
    var once := ReverseInverted(tokens);
    forall i | 0 <= i < |tokens|
      ensures ReverseInverted(once)[i] == tokens[i]
    {
      InvertTokenInvolution(tokens[i]);
    }
  }

  // ---------------------------------------------------------------------
  // The injected random source and the shuffle
  // ---------------------------------------------------------------------

  /** Stands for `Math.random`: each draw picks an index below a given
      bound; once the supplied draws are used up every pick is 0. */
  class RandomSource {
    var draws: seq<nat>

    constructor(draws: seq<nat>)
      ensures this.draws == draws
    {
      this.draws := draws;
    }

    /** `Math.floor(Math.random() * n)`. */
    method Below(n: nat) returns (j: nat)
      requires n > 0
      modifies this
      ensures j < n
      ensures old(draws) == [] ==> j == 0 && draws == []
      ensures old(draws) != [] ==> j == old(draws)[0] % n && draws == old(draws)[1..]
    {
      if draws == [] {
        j := 0;
      } else {
        j := draws[0] % n;
        draws := draws[1..];
      }
    }
  }

  /** The Fisher-Yates loop of dfsFallback: for i from the last index down
      to 1, swap entry i with a drawn entry at or below it. */
  method Shuffle(a: array<string>, rng: RandomSource)
    modifies a, rng
    ensures multiset(a[..]) == multiset(old(a[..]))
  {
    var i := a.Length - 1;
    while i > 0
      invariant -1 <= i < a.Length
      invariant multiset(a[..]) == multiset(old(a[..]))
      decreases i
    {
      var j := rng.Below(i + 1);
      ghost var before := a[..];
      a[i], a[j] := a[j], a[i];
      assert a[..] == before[i := before[j]][j := before[i]];
      SwapKeepsMultiset(before, i, j);
      i := i - 1;
    }
  }

  /** Swapping two entries keeps the multiset of entries. */
  lemma SwapKeepsMultiset(s: seq<string>, i: int, j: int)
    requires 0 <= i < |s| && 0 <= j < |s|
    ensures multiset(s[i := s[j]][j := s[i]]) == multiset(s)
  {
  }

  /** Entries of a rearrangement of the table's moves are table moves. */
  lemma RearrangedMoves(order: seq<string>)
    requires multiset(order) == multiset(PHASE1_MOVES)
    ensures forall k :: 0 <= k < |order| ==> order[k] in PHASE1_MOVES
  {
    forall k | 0 <= k < |order|
      ensures order[k] in PHASE1_MOVES
    {
      assert order[k] in multiset(order);
    }
  }

  // ---------------------------------------------------------------------
  // dfsFallback
  // ---------------------------------------------------------------------

  /** The path `path` would spell the first |path| tokens of `avoid`, word
      for word once joined with spaces. */
  predicate AvoidHit(path: seq<string>, avoid: seq<string>)
  {
    |path| <= |avoid| && Join(path) == Join(avoid[..|path|])
  }

  /** A branch the fallback search enters from `state`, given the moves
      already on the path (`prefix`): within the depth limit and the bound
      at every node, each move one of the eighteen, not the previous move or
      its inverse, and no path along it that spells a prefix of `avoid`;
      it ends at the solved state. */
  ghost predicate FallbackReach(s: CubeState, depth: int, bound: int, last: Option<string>,
                                prefix: seq<string>, ext: seq<string>, maxDepth: int, avoid: seq<string>)
    requires WellFormed(s)
    decreases |ext|
  {
    depth <= maxDepth && depth + Phase2Heuristic(s) <= bound &&
    if ext == [] then IsSolved(s)
    else
      ext[0] in PHASE1_MOVES && !IsInverse(ext[0], last) && !AvoidHit(prefix + [ext[0]], avoid) &&
      FallbackReach(Moved(s, ext[0]), depth + 1, bound, Some(ext[0]), prefix + [ext[0]], ext[1..], maxDepth, avoid)
  }

  /** What a fallback branch is: table moves, none undoing its predecessor,
      the solved state at its end, and no longer than the bound and the
      depth limit allow. */
  lemma {:induction false} FallbackReachSound(s: CubeState, depth: int, bound: int, last: Option<string>,
                                              prefix: seq<string>, ext: seq<string>, maxDepth: int,
                                              avoid: seq<string>)
    requires WellFormed(s) && FallbackReach(s, depth, bound, last, prefix, ext, maxDepth, avoid)
    ensures IsSolved(Apply(s, ext))
    ensures depth + |ext| <= bound && depth + |ext| <= maxDepth
    ensures forall k :: 0 <= k < |ext| ==> ext[k] in PHASE1_MOVES
    ensures NoInverseRun(last, ext)
    decreases |ext|
  {
    if ext != [] {
      var m := ext[0];
      FallbackReachSound(Moved(s, m), depth + 1, bound, Some(m), prefix + [m], ext[1..], maxDepth, avoid);
      forall k | 0 <= k < |ext|
        ensures ext[k] in PHASE1_MOVES
        ensures !IsInverse(ext[k], if k == 0 then last else Some(ext[k - 1]))
      {
        if k > 0 {
          assert ext[k] == ext[1..][k - 1];
          if k > 1 {
            assert ext[k - 1] == ext[1..][k - 2];
          }
        }
      }
    }
  }

  /** No path along a fallback branch, the moves before it included, spells
      a prefix of `avoid`. */
  lemma {:induction false} FallbackReachAvoids(s: CubeState, depth: int, bound: int, last: Option<string>,
                                               prefix: seq<string>, ext: seq<string>, maxDepth: int,
                                               avoid: seq<string>)
    requires WellFormed(s) && FallbackReach(s, depth, bound, last, prefix, ext, maxDepth, avoid)
    ensures forall k :: 1 <= k <= |ext| ==> !AvoidHit(prefix + ext[..k], avoid)
    decreases |ext|
  {
    if ext != [] {
      var m := ext[0];
      FallbackReachAvoids(Moved(s, m), depth + 1, bound, Some(m), prefix + [m], ext[1..], maxDepth, avoid);
      AvoidsExtend(prefix, m, ext[1..], avoid);
      assert [m] + ext[1..] == ext;
    }
  }

  /** Avoiding `avoid` after one more move and along the rest extends to
      the whole extension. */
  lemma AvoidsExtend(prefix: seq<string>, m: string, rest: seq<string>, avoid: seq<string>)
    requires !AvoidHit(prefix + [m], avoid)
    requires forall k :: 1 <= k <= |rest| ==> !AvoidHit((prefix + [m]) + rest[..k], avoid)
    ensures forall k :: 1 <= k <= |rest| + 1 ==> !AvoidHit(prefix + ([m] + rest)[..k], avoid)
  {
    forall k | 1 <= k <= |rest| + 1
      ensures !AvoidHit(prefix + ([m] + rest)[..k], avoid)
    {
      if k > 1 {
        assert prefix + ([m] + rest)[..k] == (prefix + [m]) + rest[..k - 1];
      } else {
        assert prefix + ([m] + rest)[..k] == prefix + [m];
      }
    }
  }

  /** `dfsFallback`: as dfsPhase2, but over all eighteen moves in a shuffled
      order, skipping any move after which the path spells a prefix of
      `avoidSequence`. Returns FOUND with the path extended by a fallback
      branch, or a bound above the current one with the path as it was. */
  method DfsFallback(state: CubeState, depth: nat, bound: int, path: Path, lastMove: Option<string>,
                     maxDepth: int, avoidSequence: seq<string>, rng: RandomSource) returns (r: int)
    requires WellFormed(state)
    modifies path, rng
    ensures r == FOUND ==>
      |path.moves| >= |old(path.moves)| && path.moves[..|old(path.moves)|] == old(path.moves) &&
      FallbackReach(state, depth, bound, lastMove, old(path.moves), path.moves[|old(path.moves)|..],
                    maxDepth, avoidSequence)
    ensures r != FOUND ==> path.moves == old(path.moves)
    ensures r != FOUND ==> r > bound || r == INFINITY
    ensures IsSolved(state) && depth <= maxDepth && depth + Phase2Heuristic(state) <= bound ==>
      r == FOUND && path.moves == old(path.moves)
    decreases maxDepth - depth + 1, 2
  {
    if depth > maxDepth {
      return INFINITY;
    }
    var f := depth + Phase2Heuristic(state);
    if f > bound {
      return f;
    }
    if IsSolved(state) {
      assert path.moves[|path.moves|..] == [];
      assert FallbackReach(state, depth, bound, lastMove, path.moves, [], maxDepth, avoidSequence);
      return FOUND;
    }
    r := DfsFallbackMoves(state, depth, bound, path, lastMove, maxDepth, avoidSequence, rng);
  }

  /** The move loop of dfsFallback: shuffle a copy of the eighteen moves,
      then descend into each that is not the previous move or its inverse
      until one finds the goal; otherwise a bound above the current one, or
      INFINITY (the source keeps the smallest bound reported below by the
      moves not skipped; the contract does not state minimality). */
  method DfsFallbackMoves(state: CubeState, depth: nat, bound: int, path: Path, lastMove: Option<string>,
                          maxDepth: int, avoidSequence: seq<string>, rng: RandomSource) returns (r: int)
    requires WellFormed(state) && depth <= maxDepth && depth + Phase2Heuristic(state) <= bound
    modifies path, rng
    ensures r == FOUND ==>
      |path.moves| >= |old(path.moves)| && path.moves[..|old(path.moves)|] == old(path.moves) &&
      FallbackReach(state, depth, bound, lastMove, old(path.moves), path.moves[|old(path.moves)|..],
                    maxDepth, avoidSequence)
    ensures r != FOUND ==> path.moves == old(path.moves)
    ensures r != FOUND ==> r > bound || r == INFINITY
    decreases maxDepth - depth + 1, 1
  {
    var minNextBound := INFINITY;
    var shuffled := new string[|PHASE1_MOVES|](i requires 0 <= i < |PHASE1_MOVES| => PHASE1_MOVES[i]);
    assert shuffled[..] == PHASE1_MOVES;
    Shuffle(shuffled, rng);
    var moves := shuffled[..];
    RearrangedMoves(moves);
    var i := 0;
    while i < |moves|
      invariant 0 <= i <= |moves|
      invariant path.moves == old(path.moves)
      invariant minNextBound > bound || minNextBound == INFINITY
    {
      var move := moves[i];
      if !IsInverse(move, lastMove) {
        var result, skipped := DescendFallback(state, depth, bound, path, lastMove, maxDepth,
                                               avoidSequence, rng, move);
        if !skipped {
          if result == FOUND {
            return FOUND;
          }
          minNextBound := Min(minNextBound, result);
        }
      }
      i := i + 1;
    }
    return minNextBound;
  }

  /** One turn of the dfsFallback loop: push the move; if the path now
      spells a prefix of `avoidSequence`, pop it and report the move as
      skipped; otherwise search below it and pop it again unless the goal
      was found. */
  method DescendFallback(state: CubeState, depth: nat, bound: int, path: Path, lastMove: Option<string>,
                         maxDepth: int, avoidSequence: seq<string>, rng: RandomSource, move: string)
    returns (r: int, skipped: bool)
    requires WellFormed(state)
    requires depth <= maxDepth && depth + Phase2Heuristic(state) <= bound
    requires move in PHASE1_MOVES && !IsInverse(move, lastMove)
    modifies path, rng
    ensures skipped ==> path.moves == old(path.moves) && AvoidHit(old(path.moves) + [move], avoidSequence)
    ensures !skipped && r == FOUND ==>
      |path.moves| >= |old(path.moves)| && path.moves[..|old(path.moves)|] == old(path.moves) &&
      FallbackReach(state, depth, bound, lastMove, old(path.moves), path.moves[|old(path.moves)|..],
                    maxDepth, avoidSequence)
    ensures !skipped && r != FOUND ==> path.moves == old(path.moves) && (r > bound || r == INFINITY)
    decreases maxDepth - depth + 1, 0
  {
    ghost var before := path.moves;
    var nextState := ApplyMove(state, move);
    path.Push(move);
    if AvoidHit(path.moves, avoidSequence) {
      path.Pop();
      assert (before + [move])[..|before|] == before;
      return 0, true;
    }
    skipped := false;
    ghost var pushed := path.moves;
    r := DfsFallback(nextState, depth + 1, bound, path, Some(move), maxDepth, avoidSequence, rng);
    if r == FOUND {
      FoundFallbackBranch(state, depth, bound, lastMove, move, before, pushed, path.moves, maxDepth,
                          avoidSequence);
      return;
    }
    path.Pop();
    assert (before + [move])[..|before|] == before;
  }

  /** A fallback branch found below move m extends to one from the state
      above. */
  lemma FoundFallbackBranch(s: CubeState, depth: int, bound: int, last: Option<string>, m: string,
                            before: seq<string>, pushed: seq<string>, after: seq<string>, maxDepth: int,
                            avoid: seq<string>)
    requires WellFormed(s)
    requires depth <= maxDepth && depth + Phase2Heuristic(s) <= bound
    requires pushed == before + [m]
    requires m in PHASE1_MOVES && !IsInverse(m, last) && !AvoidHit(pushed, avoid)
    requires |after| >= |pushed| && after[..|pushed|] == pushed
    requires FallbackReach(Moved(s, m), depth + 1, bound, Some(m), pushed, after[|pushed|..], maxDepth, avoid)
    ensures |after| >= |before| && after[..|before|] == before
    ensures FallbackReach(s, depth, bound, last, before, after[|before|..], maxDepth, avoid)
  {
    var ext := after[|before|..];
    assert after[..|before|] == after[..|before| + 1][..|before|];
    assert ext[0] == after[..|before| + 1][|before|];
    assert ext[1..] == after[|before| + 1..];
  }

  // ---------------------------------------------------------------------
  // solveCubeFallback
  // ---------------------------------------------------------------------

  /** `solveCubeFallback`, with `draws` standing for the values of
      `Math.random`. Whatever the draws, a returned list solves the
      scrambled state in fewer than MAX_MOVES table moves, no move undoes
      its predecessor, it does not spell the reversed, inverted scramble,
      and when both are non-empty its first move differs from that
      sequence's first token. When the scrambled state is solved and the
      reversed, inverted scramble joins to the empty text (the empty
      scramble), every round finds the empty path again, resets the bound
      to FOUND + 1 = 0, and the result is None. */
  method SolveCubeFallback(scramble: string, draws: seq<nat>) returns (r: Option<seq<string>>)
    ensures r.Some? ==>
      IsSolved(Apply(Scrambled(scramble), r.value)) && |r.value| < MAX_MOVES &&
      (forall k :: 0 <= k < |r.value| ==> r.value[k] in PHASE1_MOVES) &&
      NoInverseRun(None, r.value) &&
      Join(r.value) != Join(ReverseInverted(ParseScramble(scramble)))
    ensures r.Some? ==> r.value != ReverseInverted(ParseScramble(scramble))
    ensures r.Some? && r.value != [] && ParseScramble(scramble) != [] ==>
      r.value[0] != ReverseInverted(ParseScramble(scramble))[0]
    ensures IsSolved(Scrambled(scramble)) && Join(ReverseInverted(ParseScramble(scramble))) == "" ==>
      r == None
  {
    var scrambledState := ApplyScramble(scramble);
    var scrambleMoves := ParseScramble(scramble);
    var reverseScramble := ReverseInverted(scrambleMoves);
    var bound := Max(Phase2Heuristic(scrambledState), 1);
    var path := new Path();
    var rng := new RandomSource(draws);
    var iterations := 0;
    ghost var stuck := IsSolved(scrambledState) && Join(reverseScramble) == "";
    if stuck {
      IsSolvedMeans(scrambledState);
      Phase2HeuristicBounds(scrambledState);
    }
    while iterations < MAX_FALLBACK_ITERATIONS && bound < MAX_MOVES
      invariant stuck ==> 0 <= bound && Phase2Heuristic(scrambledState) == 0
      decreases MAX_FALLBACK_ITERATIONS - iterations
    {
      iterations := iterations + 1;
      path.Clear();
      var result := DfsFallback(scrambledState, 0, bound, path, None, MAX_MOVES, reverseScramble, rng);
      if result == FOUND {
        var solutionStr := Join(path.moves);
        var reverseStr := Join(reverseScramble);
        if solutionStr != reverseStr && |path.moves| <= MAX_MOVES {
          assert path.moves[0..] == path.moves;
          FallbackReachSound(scrambledState, 0, bound, None, [], path.moves, MAX_MOVES, reverseScramble);
          FallbackReachAvoids(scrambledState, 0, bound, None, [], path.moves, MAX_MOVES, reverseScramble);
          FirstMoveAvoided(path.moves, reverseScramble);
          return Some(path.moves);
        }
        bound := result + 1;
      } else {
        if result >= INFINITY {
          break;
        }
        bound := result;
      }
    }
    return None;
  }

  /** The empty scramble: whatever the draws, the fallback gives up. */
  method EmptyScrambleFallback(draws: seq<nat>) returns (r: Option<seq<string>>)
    ensures r == None
  {
    assert ParseScramble("") == [];
    IsSolvedMeans(Scrambled(""));
    r := SolveCubeFallback("", draws);
  }

  /** A non-empty path that avoids spelling a one-token prefix of a
      non-empty sequence starts with a different token. */
  lemma FirstMoveAvoided(path: seq<string>, avoid: seq<string>)
    requires forall k :: 1 <= k <= |path| ==> !AvoidHit([] + path[..k], avoid)
    ensures path != [] && avoid != [] ==> path[0] != avoid[0]
  {
    if path != [] && avoid != [] {
      assert !AvoidHit([] + path[..1], avoid);
      assert [] + path[..1] == [path[0]];
      assert avoid[..1] == [avoid[0]];
    }
  }
}
