/**
 * The cube state and the move engine of cube-solver.js: the state record,
 * the verbatim table of eighteen moves, applyMove (copy, buffer the four
 * affected entries, write them back through the move's mapping),
 * applyMoves, parseScramble and applyScramble.
 */
module Cube {
  import opened Wrappers
  import opened Objects

  /** JavaScript's `undefined`. A move writes it into a permutation array
      when its mapping reads the four-entry buffer past its end. Piece ids
      are never negative, so the sentinel cannot be mistaken for a piece. */
  const UNDEF: int := -1

  datatype CubeState = CubeState(
    cornerPerm: seq<int>,  // position -> corner piece id, or UNDEF
    edgePerm: seq<int>,    // position -> edge piece id, or UNDEF
    cornerOri: seq<int>,   // corner twist at each position, mod 3
    edgeOri: seq<int>)     // edge flip at each position, mod 2

  /** The array lengths the constructor gives every state; no move changes them. */
  predicate WellFormed(s: CubeState)
  {
    |s.cornerPerm| == 8 && |s.edgePerm| == 12 && |s.cornerOri| == 8 && |s.edgeOri| == 12
  }

  /** `new CubeState()`: identity permutations and all orientations 0. */
  function Solved(): (s: CubeState)
    ensures WellFormed(s)
    ensures forall i :: 0 <= i < 8 ==> s.cornerPerm[i] == i && s.cornerOri[i] == 0
    ensures forall i :: 0 <= i < 12 ==> s.edgePerm[i] == i && s.edgeOri[i] == 0
  {
    CubeState(seq(8, i => i), seq(12, i => i), seq(8, _ => 0), seq(12, _ => 0))
  }

  /** `equals`: the JSON texts of the four arrays compared pairwise. JSON
      writes `undefined` as `null` on both sides, so two states are equal
      exactly when they agree entry by entry in all four arrays. */
  function Equals(a: CubeState, b: CubeState): (r: bool)
    ensures r <==> a == b
  {
    a.cornerPerm == b.cornerPerm && a.edgePerm == b.edgePerm &&
    a.cornerOri == b.cornerOri && a.edgeOri == b.edgeOri
  }

  // ---------------------------------------------------------------------
  // The move table
  // ---------------------------------------------------------------------

  /** One `[indices, mapping]` pair of a move: the four positions touched
      and, for the k-th of them, the buffer slot its new value is read from. */
  datatype Cycle = Cycle(indices: seq<int>, mapping: seq<int>)

  /** One entry of `MOVES`. The orientation rows are present only for the
      quarter turns of L, R, F and B (edge flips only for F and B). */
  datatype MoveDef = MoveDef(
    corners: Cycle,
    edges: Cycle,
    cornerOri: Option<seq<int>>,
    edgeOri: Option<seq<int>>)

  /** Four distinct positions below n and a mapping of four entries. The
      mapping entries themselves are not constrained: L/R/F/B use values
      past the buffer. */
  predicate ValidCycle(c: Cycle, n: int)
  {
    |c.indices| == 4 && |c.mapping| == 4 &&
    0 <= c.indices[0] < n && 0 <= c.indices[1] < n && 0 <= c.indices[2] < n && 0 <= c.indices[3] < n &&
    c.indices[0] != c.indices[1] && c.indices[0] != c.indices[2] && c.indices[0] != c.indices[3] &&
    c.indices[1] != c.indices[2] && c.indices[1] != c.indices[3] && c.indices[2] != c.indices[3]
  }

  /** The quantified reading of ValidCycle. */
  lemma CycleFacts(c: Cycle, n: int)
    requires ValidCycle(c, n)
    ensures forall k :: 0 <= k < |c.indices| ==> 0 <= c.indices[k] < n
    ensures forall i, j :: 0 <= i < j < |c.indices| ==> c.indices[i] != c.indices[j]
  {
  }

  predicate ValidDef(d: MoveDef)
  {
    ValidCycle(d.corners, 8) && ValidCycle(d.edges, 12) &&
    (d.cornerOri.Some? ==> |d.cornerOri.value| == 4) &&
    (d.edgeOri.Some? ==> |d.edgeOri.value| == 4)
  }

  /** `MOVES`, verbatim: each token with its entry, in source order. */
  const MOVES: seq<(string, MoveDef)> := [
      ("U", MoveDef(Cycle([0, 1, 2, 3], [1, 2, 3, 0]), Cycle([0, 1, 2, 3], [1, 2, 3, 0]), None, None)),
      ("U'", MoveDef(Cycle([0, 1, 2, 3], [3, 0, 1, 2]), Cycle([0, 1, 2, 3], [3, 0, 1, 2]), None, None)),
      ("U2", MoveDef(Cycle([0, 1, 2, 3], [2, 3, 0, 1]), Cycle([0, 1, 2, 3], [2, 3, 0, 1]), None, None)),
      ("D", MoveDef(Cycle([4, 5, 6, 7], [3, 0, 1, 2]), Cycle([4, 5, 6, 7], [3, 0, 1, 2]), None, None)),
      ("D'", MoveDef(Cycle([4, 5, 6, 7], [1, 2, 3, 0]), Cycle([4, 5, 6, 7], [1, 2, 3, 0]), None, None)),
      ("D2", MoveDef(Cycle([4, 5, 6, 7], [2, 3, 0, 1]), Cycle([4, 5, 6, 7], [2, 3, 0, 1]), None, None)),
      ("L", MoveDef(Cycle([0, 3, 7, 4], [3, 7, 4, 0]), Cycle([3, 7, 11, 4], [7, 11, 4, 3]), Some([1, 2, 1, 2]), None)),
      ("L'", MoveDef(Cycle([0, 3, 7, 4], [4, 0, 3, 7]), Cycle([3, 7, 11, 4], [4, 3, 7, 11]), Some([2, 1, 2, 1]), None)),
      ("L2", MoveDef(Cycle([0, 3, 7, 4], [7, 4, 0, 3]), Cycle([3, 7, 11, 4], [11, 4, 3, 7]), None, None)),
      ("R", MoveDef(Cycle([1, 2, 6, 5], [2, 6, 5, 1]), Cycle([1, 5, 9, 6], [5, 9, 6, 1]), Some([2, 1, 2, 1]), None)),
      ("R'", MoveDef(Cycle([1, 2, 6, 5], [5, 1, 2, 6]), Cycle([1, 5, 9, 6], [6, 1, 5, 9]), Some([1, 2, 1, 2]), None)),
      ("R2", MoveDef(Cycle([1, 2, 6, 5], [6, 5, 1, 2]), Cycle([1, 5, 9, 6], [9, 6, 1, 5]), None, None)),
      ("F", MoveDef(Cycle([0, 1, 5, 4], [1, 5, 4, 0]), Cycle([0, 4, 8, 5], [4, 8, 5, 0]), Some([1, 2, 1, 2]), Some([1, 1, 1, 1]))),
      ("F'", MoveDef(Cycle([0, 1, 5, 4], [4, 0, 1, 5]), Cycle([0, 4, 8, 5], [5, 0, 4, 8]), Some([2, 1, 2, 1]), Some([1, 1, 1, 1]))),
      ("F2", MoveDef(Cycle([0, 1, 5, 4], [5, 4, 0, 1]), Cycle([0, 4, 8, 5], [8, 5, 0, 4]), None, None)),
      ("B", MoveDef(Cycle([2, 3, 7, 6], [3, 7, 6, 2]), Cycle([2, 6, 10, 7], [6, 10, 7, 2]), Some([2, 1, 2, 1]), Some([1, 1, 1, 1]))),
      ("B'", MoveDef(Cycle([2, 3, 7, 6], [6, 2, 3, 7]), Cycle([2, 6, 10, 7], [7, 2, 6, 10]), Some([1, 2, 1, 2]), Some([1, 1, 1, 1]))),
      ("B2", MoveDef(Cycle([2, 3, 7, 6], [7, 6, 2, 3]), Cycle([2, 6, 10, 7], [10, 7, 2, 6]), None, None))
    ]

  /** Every entry of MOVES is well formed. */
  lemma MovesValid()
    ensures forall i :: 0 <= i < |MOVES| ==> ValidDef(MOVES[i].1)
  {
  }

  /** `MOVES[move]`; None for any other token. */
  function MoveTable(move: string): (d: Option<MoveDef>)
    ensures d.Some? ==> ValidDef(d.value)
  {
    MovesValid();
    if Lookup(MOVES, move).Some? then LookupListed(MOVES, move); Lookup(MOVES, move) else None
  }

  /** The eighteen tokens of MOVES are distinct. */
  lemma MovesKeysDistinct()
    ensures DistinctKeys(MOVES)
  {
    var keys := MovesKeys();
    TokensDistinct(keys);
    DistinctKeysBy(MOVES, keys);
  }

  /** The keys of MOVES, in order. */
  lemma MovesKeys() returns (keys: seq<string>)
    ensures keys == ["U", "U'", "U2", "D", "D'", "D2", "L", "L'", "L2", "R", "R'", "R2", "F", "F'", "F2", "B", "B'", "B2"]
    ensures |MOVES| == |keys| && forall i :: 0 <= i < |MOVES| ==> MOVES[i].0 == keys[i]
  {
    keys := ["U", "U'", "U2", "D", "D'", "D2", "L", "L'", "L2", "R", "R'", "R2", "F", "F'", "F2", "B", "B'", "B2"];
  }

  /** The eighteen face-turn tokens are distinct strings. */
  lemma TokensDistinct(keys: seq<string>)
    requires keys == ["U", "U'", "U2", "D", "D'", "D2", "L", "L'", "L2", "R", "R'", "R2", "F", "F'", "F2", "B", "B'", "B2"]
    ensures forall i, j :: 0 <= i < j < |keys| ==> keys[i] != keys[j]
  {
  }

  /** A token in the table is the key of one of its entries. */
  lemma MoveTableEntry(move: string) returns (i: int)
    requires MoveTable(move).Some?
    ensures 0 <= i < |MOVES| && MOVES[i] == (move, MoveTable(move).value)
  {
    LookupListed(MOVES, move);
    i :| 0 <= i < |MOVES| && MOVES[i] == (move, MoveTable(move).value);
  }

  /** Each entry of MOVES is what its token reads. */
  lemma MoveTableAt(i: int)
    requires 0 <= i < |MOVES|
    ensures MoveTable(MOVES[i].0) == Some(MOVES[i].1)
  {
    MovesKeysDistinct();
    LookupAt(MOVES, i);
  }

  // ---------------------------------------------------------------------
  // What one move does, position by position
  // ---------------------------------------------------------------------

  /** `a.indexOf(x)`: the first position holding x, or -1. */
  function IndexOf(a: seq<int>, x: int): (r: int)
    ensures -1 <= r < |a|
    ensures r == -1 <==> x !in a
    ensures r >= 0 ==> a[r] == x && x !in a[..r]
  {
    if |a| == 0 then -1
    else if a[0] == x then 0
    else
      var r := IndexOf(a[1..], x);
      assert a[1..][..if r < 0 then 0 else r] == a[1..if r < 0 then 1 else r + 1];
      if r == -1 then -1 else r + 1
  }

  /** JavaScript's `%` for a positive divisor: the sign follows the dividend. */
  function JsRem(a: int, n: int): (r: int)
    requires n > 0
    ensures a >= 0 ==> 0 <= r < n
    ensures a < 0 ==> -n < r <= 0
  {
    if a >= 0 then a % n else -((-a) % n)
  }

  /** Reading `temp[k]` from a JavaScript array: `undefined` out of range. */
  function BufferRead(temp: seq<int>, k: int): int
  {
    if 0 <= k < |temp| then temp[k] else UNDEF
  }

  /** `indices.map(i => a[i])`: the buffer filled before any write. */
  function Buffer(a: seq<int>, indices: seq<int>): seq<int>
    requires forall k :: 0 <= k < |indices| ==> 0 <= indices[k] < |a|
  {
    seq(|indices|, k requires 0 <= k < |indices| => a[indices[k]])
  }

  /** The permutation array after one cycle: the k-th listed position gets
      buffer slot `mapping[k]` (UNDEF past the buffer); the rest keep theirs. */
  function PermuteAt(a: seq<int>, c: Cycle): seq<int>
    requires ValidCycle(c, |a|)
  {
    seq(|a|, p requires 0 <= p < |a| =>
      if p in c.indices then BufferRead(Buffer(a, c.indices), c.mapping[IndexOf(c.indices, p)])
      else a[p])
  }

  // ---------------------------------------------------------------------
  // What one move does, write by write
  // ---------------------------------------------------------------------

  /** The permutation array after the first k writes of a cycle,
      `a[indices[j]] = temp[mapping[j]]` for j = 0, 1, ..., k-1 in order. */
  function Permuted(a: seq<int>, temp: seq<int>, c: Cycle, k: nat): (r: seq<int>)
    requires ValidCycle(c, |a|) && k <= 4
    ensures |r| == |a|
    decreases k
  {
    if k == 0 then a
    else Permuted(a, temp, c, k - 1)[c.indices[k - 1] := BufferRead(temp, c.mapping[k - 1])]
  }

  /** The orientation array after the first k twists,
      `a[indices[j]] = (a[indices[j]] + delta[j]) % 3` in order. */
  function Twisted(a: seq<int>, indices: seq<int>, delta: seq<int>, k: nat): (r: seq<int>)
    requires |delta| == |indices| && k <= |indices|
    requires forall j :: 0 <= j < |indices| ==> 0 <= indices[j] < |a|
    ensures |r| == |a|
    decreases k
  {
    if k == 0 then a
    else
      var b := Twisted(a, indices, delta, k - 1);
      b[indices[k - 1] := JsRem(b[indices[k - 1]] + delta[k - 1], 3)]
  }

  /** The orientation array after the first k flips,
      `a[indices[j]] = (a[indices[j]] + 1) % 2` in order. */
  function Flipped(a: seq<int>, indices: seq<int>, k: nat): (r: seq<int>)
    requires k <= |indices|
    requires forall j :: 0 <= j < |indices| ==> 0 <= indices[j] < |a|
    ensures |r| == |a|
    decreases k
  {
    if k == 0 then a
    else
      var b := Flipped(a, indices, k - 1);
      b[indices[k - 1] := JsRem(b[indices[k - 1]] + 1, 2)]
  }

  /** The state a table entry produces, as applyMove writes it: both
      permutation cycles through their buffers, then the orientation rows
      the entry carries. */
  function MovedBy(s: CubeState, d: MoveDef): (r: CubeState)
    requires WellFormed(s) && ValidDef(d)
    ensures WellFormed(r)
  {
    CycleFacts(d.corners, 8);
    CycleFacts(d.edges, 12);
    CubeState(
      Permuted(s.cornerPerm, Buffer(s.cornerPerm, d.corners.indices), d.corners, 4),
      Permuted(s.edgePerm, Buffer(s.edgePerm, d.edges.indices), d.edges, 4),
      if d.cornerOri.Some? then Twisted(s.cornerOri, d.corners.indices, d.cornerOri.value, 4) else s.cornerOri,
      if d.edgeOri.Some? then Flipped(s.edgeOri, d.edges.indices, 4) else s.edgeOri)
  }

  /** The state `applyMove(s, move)` returns: the argument itself for a
      token that is not in the table. */
  function Moved(s: CubeState, move: string): (r: CubeState)
    requires WellFormed(s)
    ensures WellFormed(r)
  {
    match MoveTable(move)
    case None => s
    case Some(d) => MovedBy(s, d)
  }

  /** `applyMoves`: the moves applied left to right. */
  function Apply(s: CubeState, moves: seq<string>): (r: CubeState)
    requires WellFormed(s)
    ensures WellFormed(r)
    decreases |moves|
  {
    if moves == [] then s else Apply(Moved(s, moves[0]), moves[1..])
  }

  lemma {:induction false} ApplyConcat(s: CubeState, a: seq<string>, b: seq<string>)
    requires WellFormed(s)
    ensures Apply(s, a + b) == Apply(Apply(s, a), b)
    decreases |a|
  {
    if a == [] {
      assert a + b == b;
    } else {
      assert (a + b)[0] == a[0];
      assert (a + b)[1..] == a[1..] + b;
      ApplyConcat(Moved(s, a[0]), a[1..], b);
    }
  }

  /** One more move of the list is one more move applied. */
  lemma ApplyStep(s: CubeState, moves: seq<string>, i: int)
    requires WellFormed(s) && 0 <= i < |moves|
    ensures Apply(s, moves[..i + 1]) == Moved(Apply(s, moves[..i]), moves[i])
  {
    assert moves[..i + 1] == moves[..i] + [moves[i]];
    ApplyConcat(s, moves[..i], [moves[i]]);
    var before := Apply(s, moves[..i]);
    assert Apply(before, [moves[i]]) == Apply(Moved(before, moves[i]), []);
  }

  // ---------------------------------------------------------------------
  // applyMove and applyMoves, in place on the copy's arrays
  // ---------------------------------------------------------------------

  lemma IndexOfDistinct(indices: seq<int>, k: int)
    requires 0 <= k < |indices|
    requires forall i, j :: 0 <= i < j < |indices| ==> indices[i] != indices[j]
    ensures IndexOf(indices, indices[k]) == k
  {
  }

  /** An array that agrees with a0 off the cycle and holds the buffered
      entry `temp[mapping[k]]` at the k-th listed position is `PermuteAt`. */
  lemma PermuteAtByPositions(a0: seq<int>, b: seq<int>, c: Cycle)
    requires ValidCycle(c, |a0|) && |b| == |a0|
    requires forall p :: 0 <= p < |b| && p !in c.indices ==> b[p] == a0[p]
    requires forall j :: 0 <= j < 4 ==> b[c.indices[j]] == BufferRead(Buffer(a0, c.indices), c.mapping[j])
    ensures b == PermuteAt(a0, c)
  {
    CycleFacts(c, |a0|);
    forall p | 0 <= p < |b|
      ensures b[p] == PermuteAt(a0, c)[p]
    {
      if p in c.indices {
        var k := IndexOf(c.indices, p);
        assert c.indices[k] == p;
        assert b[c.indices[k]] == BufferRead(Buffer(a0, c.indices), c.mapping[k]);
      }
    }
  }

  /** After k writes of a cycle over distinct positions, the positions not
      yet written keep their entries and the j-th written one holds
      `temp[mapping[j]]`. */
  lemma {:induction false} PermutedEntries(a: seq<int>, temp: seq<int>, c: Cycle, k: nat)
    requires ValidCycle(c, |a|) && k <= 4
    requires forall j :: 0 <= j < 4 ==> 0 <= c.indices[j] < |a|
    ensures forall p :: 0 <= p < |a| && p !in c.indices[..k] ==> Permuted(a, temp, c, k)[p] == a[p]
    ensures forall j :: 0 <= j < k ==> Permuted(a, temp, c, k)[c.indices[j]] == BufferRead(temp, c.mapping[j])
    decreases k
  {
    if k > 0 {
      PermutedEntries(a, temp, c, k - 1);
      CycleFacts(c, |a|);
      var i := c.indices[k - 1];
      var b := Permuted(a, temp, c, k);
      assert b == Permuted(a, temp, c, k - 1)[i := BufferRead(temp, c.mapping[k - 1])];
      assert c.indices[..k] == c.indices[..k - 1] + [i];
      forall p | 0 <= p < |a| && p !in c.indices[..k]
        ensures b[p] == a[p]
      {
        assert p != i && p !in c.indices[..k - 1];
      }
      forall j | 0 <= j < k
        ensures b[c.indices[j]] == BufferRead(temp, c.mapping[j])
      {
        if j < k - 1 {
          assert c.indices[j] != i;
        }
      }
    }
  }

  /** After the four writes of a cycle, the positions it does not list
      keep their entries and the k-th listed one holds `temp[mapping[k]]`. */
  lemma PermutedWritten(a: seq<int>, c: Cycle)
    requires ValidCycle(c, |a|)
    ensures forall p :: 0 <= p < |a| && p !in c.indices ==> Permuted(a, Buffer(a, c.indices), c, 4)[p] == a[p]
    ensures forall j :: 0 <= j < 4 ==>
              Permuted(a, Buffer(a, c.indices), c, 4)[c.indices[j]] == BufferRead(Buffer(a, c.indices), c.mapping[j])
  {
    CycleFacts(c, |a|);
    PermutedEntries(a, Buffer(a, c.indices), c, 4);
    assert c.indices[..4] == c.indices;
  }

  /** The four writes of applyMove give the position-by-position reading:
      `PermuteAt`. */
  lemma PermutedReading(a: seq<int>, c: Cycle)
    requires ValidCycle(c, |a|)
    ensures Permuted(a, Buffer(a, c.indices), c, 4) == PermuteAt(a, c)
  {
    CycleFacts(c, |a|);
    PermutedWritten(a, c);
    PermuteAtByPositions(a, Permuted(a, Buffer(a, c.indices), c, 4), c);
  }

  /** `indices.map(i => a[i])`: a fresh buffer of the listed entries. */
  method FillBuffer(a: array<int>, indices: seq<int>) returns (temp: array<int>)
    requires forall k :: 0 <= k < |indices| ==> 0 <= indices[k] < a.Length
    ensures fresh(temp) && temp[..] == Buffer(a[..], indices)
  {
    temp := new int[|indices|];
    for k := 0 to |indices|
      invariant forall j :: 0 <= j < k ==> temp[j] == a[indices[j]]
    {
      temp[k] := a[indices[k]];
    }
  }

  /** Buffer the four entries, then write `temp[mapping[k]]` at the k-th. */
  method PermuteInPlace(a: array<int>, c: Cycle)
    requires ValidCycle(c, a.Length)
    modifies a
    ensures a[..] == Permuted(old(a[..]), Buffer(old(a[..]), c.indices), c, 4)
  {
    CycleFacts(c, a.Length);
    ghost var a0 := a[..];
    var temp := FillBuffer(a, c.indices);
    for k := 0 to 4
      invariant temp[..] == Buffer(a0, c.indices)
      invariant a[..] == Permuted(a0, temp[..], c, k)
    {
      a[c.indices[k]] := BufferRead(temp[..], c.mapping[k]);
    }
  }

  /** After k twists over distinct positions, the positions not yet
      twisted keep their entries and the j-th twisted one holds its old
      entry plus `delta[j]`, mod 3. */
  lemma {:induction false} TwistedEntries(a: seq<int>, indices: seq<int>, delta: seq<int>, k: nat)
    requires |delta| == |indices| && k <= |indices|
    requires forall j :: 0 <= j < |indices| ==> 0 <= indices[j] < |a|
    requires forall i, j :: 0 <= i < j < |indices| ==> indices[i] != indices[j]
    ensures forall p :: 0 <= p < |a| && p !in indices[..k] ==> Twisted(a, indices, delta, k)[p] == a[p]
    ensures forall j :: 0 <= j < k ==> Twisted(a, indices, delta, k)[indices[j]] == JsRem(a[indices[j]] + delta[j], 3)
    decreases k
  {
    if k > 0 {
      TwistedEntries(a, indices, delta, k - 1);
      var i := indices[k - 1];
      var prev := Twisted(a, indices, delta, k - 1);
      var b := Twisted(a, indices, delta, k);
      assert b == prev[i := JsRem(prev[i] + delta[k - 1], 3)];
      assert indices[..k] == indices[..k - 1] + [i];
      assert prev[i] == a[i] by {
        assert i !in indices[..k - 1];
      }
      forall p | 0 <= p < |a| && p !in indices[..k]
        ensures b[p] == a[p]
      {
        assert p != i && p !in indices[..k - 1];
      }
      forall j | 0 <= j < k
        ensures b[indices[j]] == JsRem(a[indices[j]] + delta[j], 3)
      {
        if j < k - 1 {
          assert indices[j] != i;
        }
      }
    }
  }

  /** `cornerOri[i] = (cornerOri[i] + delta[k]) % 3` at the k-th listed position. */
  method TwistInPlace(a: array<int>, indices: seq<int>, delta: seq<int>)
    requires |indices| == |delta|
    requires forall k :: 0 <= k < |indices| ==> 0 <= indices[k] < a.Length
    modifies a
    ensures a[..] == Twisted(old(a[..]), indices, delta, |indices|)
  {
    ghost var a0 := a[..];
    for k := 0 to |indices|
      invariant a[..] == Twisted(a0, indices, delta, k)
    {
      a[indices[k]] := JsRem(a[indices[k]] + delta[k], 3);
    }
  }

  /** `edgeOri[i] = (edgeOri[i] + 1) % 2` at every listed position. */
  method FlipInPlace(a: array<int>, indices: seq<int>)
    requires forall k :: 0 <= k < |indices| ==> 0 <= indices[k] < a.Length
    modifies a
    ensures a[..] == Flipped(old(a[..]), indices, |indices|)
  {
    ghost var a0 := a[..];
    for k := 0 to |indices|
      invariant a[..] == Flipped(a0, indices, k)
    {
      a[indices[k]] := JsRem(a[indices[k]] + 1, 2);
    }
  }

  /** After k flips over distinct positions, the positions not yet flipped
      keep their entries and each flipped one holds its old entry plus 1,
      mod 2. */
  lemma {:induction false} FlippedEntries(a: seq<int>, indices: seq<int>, k: nat)
    requires k <= |indices|
    requires forall j :: 0 <= j < |indices| ==> 0 <= indices[j] < |a|
    requires forall i, j :: 0 <= i < j < |indices| ==> indices[i] != indices[j]
    ensures forall p :: 0 <= p < |a| && p !in indices[..k] ==> Flipped(a, indices, k)[p] == a[p]
    ensures forall j :: 0 <= j < k ==> Flipped(a, indices, k)[indices[j]] == JsRem(a[indices[j]] + 1, 2)
    decreases k
  {
    if k > 0 {
      FlippedEntries(a, indices, k - 1);
      var i := indices[k - 1];
      var prev := Flipped(a, indices, k - 1);
      var b := Flipped(a, indices, k);
      assert b == prev[i := JsRem(prev[i] + 1, 2)];
      assert indices[..k] == indices[..k - 1] + [i];
      assert prev[i] == a[i] by {
        assert i !in indices[..k - 1];
      }
      forall p | 0 <= p < |a| && p !in indices[..k]
        ensures b[p] == a[p]
      {
        assert p != i && p !in indices[..k - 1];
      }
      forall j | 0 <= j < k
        ensures b[indices[j]] == JsRem(a[indices[j]] + 1, 2)
      {
        if j < k - 1 {
          assert indices[j] != i;
        }
      }
    }
  }

  /** A table entry's permutation arrays read position by position: each
      cycle is `PermuteAt`. */
  lemma MovedByReading(s: CubeState, d: MoveDef)
    requires WellFormed(s) && ValidDef(d)
    ensures MovedBy(s, d).cornerPerm == PermuteAt(s.cornerPerm, d.corners)
    ensures MovedBy(s, d).edgePerm == PermuteAt(s.edgePerm, d.edges)
  {
    PermutedReading(s.cornerPerm, d.corners);
    PermutedReading(s.edgePerm, d.edges);
  }

  /** `[...a]`: a fresh array with the same entries. */
  method CopyOf(s: seq<int>) returns (a: array<int>)
    ensures fresh(a) && a[..] == s
  {
    a := new int[|s|](i requires 0 <= i < |s| => s[i]);
  }

  /** `applyMove`: copy the state, look the token up, and rewrite the copy's
      arrays in place; an unknown token gives back the argument itself. */
  method ApplyMove(state: CubeState, move: string) returns (r: CubeState)
    requires WellFormed(state)
    ensures r == Moved(state, move)
  {
    var cornerPerm := CopyOf(state.cornerPerm);
    var edgePerm := CopyOf(state.edgePerm);
    var cornerOri := CopyOf(state.cornerOri);
    var edgeOri := CopyOf(state.edgeOri);
    var def := MoveTable(move);
    if def.None? {
      return state;
    }
    r := ApplyDef(state, def.value, cornerPerm, edgePerm, cornerOri, edgeOri);
  }

  /** The body of applyMove once the entry is found: rewrite the copy's four
      arrays and read the new state off them. */
  method ApplyDef(state: CubeState, d: MoveDef,
                  cornerPerm: array<int>, edgePerm: array<int>, cornerOri: array<int>, edgeOri: array<int>)
    returns (r: CubeState)
    requires WellFormed(state) && ValidDef(d)
    requires cornerPerm[..] == state.cornerPerm && edgePerm[..] == state.edgePerm
    requires cornerOri[..] == state.cornerOri && edgeOri[..] == state.edgeOri
    requires cornerPerm != edgePerm && cornerPerm != cornerOri && cornerPerm != edgeOri
    requires edgePerm != cornerOri && edgePerm != edgeOri && cornerOri != edgeOri
    modifies cornerPerm, edgePerm, cornerOri, edgeOri
    ensures r == MovedBy(state, d)
  {
    CycleFacts(d.corners, 8);
    CycleFacts(d.edges, 12);
    PermuteInPlace(cornerPerm, d.corners);
    PermuteInPlace(edgePerm, d.edges);
    var newCornerPerm, newEdgePerm := cornerPerm[..], edgePerm[..];
    if d.cornerOri.Some? {
      TwistInPlace(cornerOri, d.corners.indices, d.cornerOri.value);
    }
    if d.edgeOri.Some? {
      FlipInPlace(edgeOri, d.edges.indices);
    }
    r := CubeState(newCornerPerm, newEdgePerm, cornerOri[..], edgeOri[..]);
  }

  /** `applyMoves`: fold applyMove over the moves, left to right. */
  method ApplyMoves(state: CubeState, moves: seq<string>) returns (r: CubeState)
    requires WellFormed(state)
    ensures r == Apply(state, moves)
  {
    r := state;
    for i := 0 to |moves|
      invariant r == Apply(state, moves[..i])
    {
      ApplyStep(state, moves, i);
      r := ApplyMove(r, moves[i]);
    }
    assert moves[..|moves|] == moves;
  }

  // ---------------------------------------------------------------------
  // Scramble text
  // ---------------------------------------------------------------------

  /** The characters JavaScript's `\s` and `String.prototype.trim` treat as
      white space (WhiteSpace and LineTerminator of ECMA-262). */
  predicate IsJsSpace(c: char)
  {
    c == ' ' || c == '\t' || c == '\n' || c == '\r' || c == '\U{0B}' || c == '\U{0C}' ||
    c == '\U{A0}' || c == '\U{1680}' || ('\U{2000}' <= c <= '\U{200A}') ||
    c == '\U{2028}' || c == '\U{2029}' || c == '\U{202F}' || c == '\U{205F}' ||
    c == '\U{3000}' || c == '\U{FEFF}'
  }

  /** A non-empty run of non-space characters. */
  predicate IsToken(t: string)
  {
    t != [] && forall i :: 0 <= i < |t| ==> !IsJsSpace(t[i])
  }

  /** Length of the run of non-space characters at the front of s. */
  function WordLength(s: string): (n: nat)
    ensures n <= |s|
    ensures forall i :: 0 <= i < n ==> !IsJsSpace(s[i])
    ensures n < |s| ==> IsJsSpace(s[n])
  {
    if s == [] || IsJsSpace(s[0]) then 0 else 1 + WordLength(s[1..])
  }

  /** `scramble.trim().split(/\s+/).filter(m => m)`: the maximal runs of
      non-space characters, in order. */
  function ParseScramble(scramble: string): (tokens: seq<string>)
    ensures forall i :: 0 <= i < |tokens| ==> IsToken(tokens[i])
    ensures (forall i :: 0 <= i < |scramble| ==> IsJsSpace(scramble[i])) ==> tokens == []
    decreases |scramble|
  {
    if scramble == [] then []
    else if IsJsSpace(scramble[0]) then ParseScramble(scramble[1..])
    else
      var n := WordLength(scramble);
      [scramble[..n]] + ParseScramble(scramble[n..])
  }

  /** `tokens.join(' ')`. */
  function Join(tokens: seq<string>): string
  {
    if |tokens| == 0 then ""
    else if |tokens| == 1 then tokens[0]
    else tokens[0] + " " + Join(tokens[1..])
  }

  /** A token followed by nothing or by a space is read as one word. */
  lemma {:induction false} WordLengthOfToken(t: string, rest: string)
    requires forall i :: 0 <= i < |t| ==> !IsJsSpace(t[i])
    requires rest == [] || IsJsSpace(rest[0])
    ensures WordLength(t + rest) == |t|
    decreases |t|
  {
    if t == [] {
      assert t + rest == rest;
    } else {
      assert (t + rest)[0] == t[0];
      assert (t + rest)[1..] == t[1..] + rest;
      WordLengthOfToken(t[1..], rest);
    }
  }

  /** Parsing the tokens joined with single spaces gives the tokens back. */
  lemma {:induction false} ParseJoin(tokens: seq<string>)
    requires forall i :: 0 <= i < |tokens| ==> IsToken(tokens[i])
    ensures ParseScramble(Join(tokens)) == tokens
    decreases |tokens|
  {
    if |tokens| == 1 {
      var t := tokens[0];
      WordLengthOfToken(t, "");
      assert t + "" == t;
      assert t[..|t|] == t && t[|t|..] == [];
    } else if |tokens| > 1 {
      var t, tail := tokens[0], Join(tokens[1..]);
      var text := t + " " + tail;
      assert t + (" " + tail) == text;
      WordLengthOfToken(t, " " + tail);
      assert text[0] == t[0] && !IsJsSpace(text[0]);
      assert text[..|t|] == t;
      assert text[|t|..] == " " + tail;
      assert (" " + tail)[1..] == tail;
      ParseJoin(tokens[1..]);
      assert ParseScramble(text) == [t] + ParseScramble(" " + tail);
    }
  }

  /** `applyScramble`: parse, then fold applyMove from the solved state. */
  method ApplyScramble(scramble: string) returns (state: CubeState)
    ensures state == Apply(Solved(), ParseScramble(scramble))
  {
    var moves := ParseScramble(scramble);
    state := Solved();
    for i := 0 to |moves|
      invariant state == Apply(Solved(), moves[..i])
    {
      ApplyStep(Solved(), moves, i);
      state := ApplyMove(state, moves[i]);
    }
    assert moves[..|moves|] == moves;
  }
}
