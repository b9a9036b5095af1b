/**
 * What the verbatim move table of cube-solver.js does to a state. The
 * U and D rows are true permutations of their buffer; every L, R, F and B
 * row reads its buffer past the end, so those moves write `undefined`
 * into the permutation arrays and lose pieces for good. None of the
 * cube-group identities that the table violates is claimed here.
 */
module MoveFacts {
  import opened Wrappers
  import opened Objects
  import opened Cube
  import opened Goals

  /** The six turns of the U and D faces. */
  predicate IsUDTurn(m: string)
  {
    m == "U" || m == "U'" || m == "U2" || m == "D" || m == "D'" || m == "D2"
  }

  /** The twelve turns of the L, R, F and B faces. */
  predicate IsSideTurn(m: string)
  {
    m == "L" || m == "L'" || m == "L2" || m == "R" || m == "R'" || m == "R2" ||
    m == "F" || m == "F'" || m == "F2" || m == "B" || m == "B'" || m == "B2"
  }

  /** The table has exactly the eighteen tokens of PHASE1_MOVES. */
  lemma TableKeys(m: string)
    ensures MoveTable(m).Some? <==> m in PHASE1_MOVES
  {
    MovesOrder();
    if MoveTable(m).Some? {
      var i := MoveTableEntry(m);
      assert PHASE1_MOVES[i] == m;
    } else {
      LookupMissing(MOVES, m);
      assert forall i :: 0 <= i < 18 ==> PHASE1_MOVES[i] != m;
    }
  }

  /** The eighteen tokens of PHASE1_MOVES are the U/D turns and the side
      turns. */
  lemma PhaseOneTokens(m: string)
    ensures m in PHASE1_MOVES <==> IsUDTurn(m) || IsSideTurn(m)
  {
    if m in PHASE1_MOVES {
      var i :| 0 <= i < |PHASE1_MOVES| && PHASE1_MOVES[i] == m;
      PhaseOneOrder();
    } else if IsUDTurn(m) {
      UDListed(m);
    } else if m == "L" || m == "L'" || m == "L2" || m == "R" || m == "R'" || m == "R2" {
      LRListed(m);
    } else if IsSideTurn(m) {
      FBListed(m);
    }
  }

  lemma UDListed(m: string)
    requires IsUDTurn(m)
    ensures m in PHASE1_MOVES
  {
    if m == "U" {
      assert PHASE1_MOVES[0] == m;
    } else if m == "U'" {
      assert PHASE1_MOVES[1] == m;
    } else if m == "U2" {
      assert PHASE1_MOVES[2] == m;
    } else if m == "D" {
      assert PHASE1_MOVES[3] == m;
    } else if m == "D'" {
      assert PHASE1_MOVES[4] == m;
    } else if m == "D2" {
      assert PHASE1_MOVES[5] == m;
    }
  }

  lemma LRListed(m: string)
    requires m == "L" || m == "L'" || m == "L2" || m == "R" || m == "R'" || m == "R2"
    ensures m in PHASE1_MOVES
  {
    if m == "L" {
      assert PHASE1_MOVES[6] == m;
    } else if m == "L'" {
      assert PHASE1_MOVES[7] == m;
    } else if m == "L2" {
      assert PHASE1_MOVES[8] == m;
    } else if m == "R" {
      assert PHASE1_MOVES[9] == m;
    } else if m == "R'" {
      assert PHASE1_MOVES[10] == m;
    } else if m == "R2" {
      assert PHASE1_MOVES[11] == m;
    }
  }

  lemma FBListed(m: string)
    requires m == "F" || m == "F'" || m == "F2" || m == "B" || m == "B'" || m == "B2"
    ensures m in PHASE1_MOVES
  {
    if m == "F" {
      assert PHASE1_MOVES[12] == m;
    } else if m == "F'" {
      assert PHASE1_MOVES[13] == m;
    } else if m == "F2" {
      assert PHASE1_MOVES[14] == m;
    } else if m == "B" {
      assert PHASE1_MOVES[15] == m;
    } else if m == "B'" {
      assert PHASE1_MOVES[16] == m;
    } else if m == "B2" {
      assert PHASE1_MOVES[17] == m;
    }
  }

  /** MOVES and PHASE1_MOVES list the same eighteen tokens in the same order. */
  lemma MovesOrder()
    ensures |MOVES| == |PHASE1_MOVES| == 18
    ensures forall i :: 0 <= i < 18 ==> MOVES[i].0 == PHASE1_MOVES[i]
  {
  }

  /** `inverses` lists its keys in the order of PHASE1_MOVES. */
  lemma InversesOrder()
    ensures |INVERSES| == |PHASE1_MOVES| == 18
    ensures forall i :: 0 <= i < 18 ==> INVERSES[i].0 == PHASE1_MOVES[i]
  {
  }

  /** PHASE1_MOVES holds the six U/D turns, then the twelve side turns. */
  lemma PhaseOneOrder()
    ensures |PHASE1_MOVES| == 18
    ensures forall i :: 0 <= i < 18 ==> (IsUDTurn(PHASE1_MOVES[i]) <==> i < 6)
    ensures forall i :: 0 <= i < 18 ==> (IsSideTurn(PHASE1_MOVES[i]) <==> 6 <= i)
  {
  }

  /** The entry of a U or D turn is one of the first six of the table. */
  lemma UDEntry(m: string) returns (i: int)
    requires IsUDTurn(m)
    ensures MoveTable(m).Some? && 0 <= i < 6 && MOVES[i] == (m, MoveTable(m).value)
  {
    PhaseOneTokens(m);
    TableKeys(m);
    i := MoveTableEntry(m);
    MovesOrder();
    PhaseOneOrder();
    assert PHASE1_MOVES[i] == m;
  }

  /** The entry of a side turn is one of the last twelve of the table. */
  lemma SideEntry(m: string) returns (i: int)
    requires IsSideTurn(m)
    ensures MoveTable(m).Some? && 6 <= i < 18 && MOVES[i] == (m, MoveTable(m).value)
  {
    PhaseOneTokens(m);
    TableKeys(m);
    i := MoveTableEntry(m);
    MovesOrder();
    PhaseOneOrder();
    assert PHASE1_MOVES[i] == m;
  }

  /** `applyMove` gives back its argument for any token outside the table. */
  lemma UnknownTokenKeepsState(s: CubeState, m: string)
    requires WellFormed(s) && m !in PHASE1_MOVES
    ensures Moved(s, m) == s
  {
    TableKeys(m);
  }

  // ---------------------------------------------------------------------
  // One cycle
  // ---------------------------------------------------------------------

  /** A mapping that reads only buffer slots 0..3, each exactly once. */
  predicate InBufferPermutation(mapping: seq<int>)
  {
    |mapping| == 4 &&
    (forall k :: 0 <= k < 4 ==> 0 <= mapping[k] < 4) &&
    (forall j :: 0 <= j < 4 ==> j in mapping)
  }

  lemma PermuteAtOutside(a: seq<int>, c: Cycle, p: int)
    requires ValidCycle(c, |a|) && 0 <= p < |a| && p !in c.indices
    ensures PermuteAt(a, c)[p] == a[p]
  {
  }

  /** The k-th listed position receives buffer slot `mapping[k]`. */
  lemma PermuteAtListed(a: seq<int>, c: Cycle, k: int)
    requires ValidCycle(c, |a|) && 0 <= k < 4
    ensures PermuteAt(a, c)[c.indices[k]] ==
            if 0 <= c.mapping[k] < 4 then a[c.indices[c.mapping[k]]] else UNDEF
  {
    CycleFacts(c, |a|);
    IndexOfDistinct(c.indices, k);
  }

  /** Every entry after a cycle is UNDEF or an entry from before it. */
  lemma PermuteAtValues(a: seq<int>, c: Cycle)
    requires ValidCycle(c, |a|)
    ensures forall p :: 0 <= p < |a| ==> PermuteAt(a, c)[p] == UNDEF || PermuteAt(a, c)[p] in a
  {
    forall p | 0 <= p < |a|
      ensures PermuteAt(a, c)[p] == UNDEF || PermuteAt(a, c)[p] in a
    {
      if p in c.indices {
        var k := IndexOf(c.indices, p);
        PermuteAtListed(a, c, k);
      }
    }
  }

  /** With an in-buffer permutation mapping, an entry before a cycle is
      still present after it. */
  lemma PermuteAtKeepsValue(a: seq<int>, c: Cycle, p: int)
    requires ValidCycle(c, |a|) && InBufferPermutation(c.mapping) && 0 <= p < |a|
    ensures a[p] in PermuteAt(a, c)
  {
    var b := PermuteAt(a, c);
    if p in c.indices {
      var j := IndexOf(c.indices, p);
      var k := IndexOf(c.mapping, j);
      PermuteAtListed(a, c, k);
      assert b[c.indices[k]] == a[p];
    } else {
      assert b[p] == a[p];
    }
  }

  /** With an in-buffer permutation mapping, a cycle only moves entries
      among the four listed positions: the same values stay present. */
  lemma PermuteAtSameValues(a: seq<int>, c: Cycle)
    requires ValidCycle(c, |a|) && InBufferPermutation(c.mapping)
    ensures forall v :: v in PermuteAt(a, c) <==> v in a
  {
    PermuteAtValues(a, c);
    forall v | v in a
      ensures v in PermuteAt(a, c)
    {
      var p :| 0 <= p < |a| && a[p] == v;
      PermuteAtKeepsValue(a, c, p);
    }
  }

  /** Two cycles over the same positions whose mappings undo each other. */
  lemma PermuteAtUndo(a: seq<int>, c1: Cycle, c2: Cycle)
    requires ValidCycle(c1, |a|) && ValidCycle(c2, |a|) && c1.indices == c2.indices
    requires InBufferPermutation(c1.mapping) && InBufferPermutation(c2.mapping)
    requires forall k :: 0 <= k < 4 ==> c1.mapping[c2.mapping[k]] == k
    ensures PermuteAt(PermuteAt(a, c1), c2) == a
  {
    var b := PermuteAt(a, c1);
    var b2 := PermuteAt(b, c2);
    forall p | 0 <= p < |a|
      ensures b2[p] == a[p]
    {
      if p in c1.indices {
        var k := IndexOf(c1.indices, p);
        PermuteAtListed(b, c2, k);
        PermuteAtListed(a, c1, c2.mapping[k]);
      }
    }
  }

  /** A cycle whose mapping reads past the buffer writes UNDEF there. */
  lemma PermuteAtOverflow(a: seq<int>, c: Cycle, k: int)
    requires ValidCycle(c, |a|) && 0 <= k < 4 && c.mapping[k] >= 4
    ensures PermuteAt(a, c)[c.indices[k]] == UNDEF
  {
    PermuteAtListed(a, c, k);
  }

  // ---------------------------------------------------------------------
  // Whole moves
  // ---------------------------------------------------------------------

  /** A table entry changes only the corners its corner cycle lists. */
  lemma DefCornerFrame(s: CubeState, d: MoveDef, p: int)
    requires WellFormed(s) && ValidDef(d) && 0 <= p < 8 && p !in d.corners.indices
    ensures MovedBy(s, d).cornerPerm[p] == s.cornerPerm[p] && MovedBy(s, d).cornerOri[p] == s.cornerOri[p]
  {
    CycleFacts(d.corners, 8);
    PermutedWritten(s.cornerPerm, d.corners);
    assert d.corners.indices[..4] == d.corners.indices;
    if d.cornerOri.Some? {
      TwistedEntries(s.cornerOri, d.corners.indices, d.cornerOri.value, 4);
    }
  }

  /** A table entry changes only the edges its edge cycle lists. */
  lemma DefEdgeFrame(s: CubeState, d: MoveDef, p: int)
    requires WellFormed(s) && ValidDef(d) && 0 <= p < 12 && p !in d.edges.indices
    ensures MovedBy(s, d).edgePerm[p] == s.edgePerm[p] && MovedBy(s, d).edgeOri[p] == s.edgeOri[p]
  {
    CycleFacts(d.edges, 12);
    PermutedWritten(s.edgePerm, d.edges);
    assert d.edges.indices[..4] == d.edges.indices;
    if d.edgeOri.Some? {
      FlippedEntries(s.edgeOri, d.edges.indices, 4);
    }
  }

  /** applyMove changes only the entries at the positions its row lists. */
  lemma MoveFrame(s: CubeState, m: string, p: int)
    requires WellFormed(s) && MoveTable(m).Some?
    ensures 0 <= p < 8 && p !in MoveTable(m).value.corners.indices ==>
              Moved(s, m).cornerPerm[p] == s.cornerPerm[p] && Moved(s, m).cornerOri[p] == s.cornerOri[p]
    ensures 0 <= p < 12 && p !in MoveTable(m).value.edges.indices ==>
              Moved(s, m).edgePerm[p] == s.edgePerm[p] && Moved(s, m).edgeOri[p] == s.edgeOri[p]
  {
    var d := MoveTable(m).value;
    if 0 <= p < 8 && p !in d.corners.indices {
      DefCornerFrame(s, d, p);
    }
    if 0 <= p < 12 && p !in d.edges.indices {
      DefEdgeFrame(s, d, p);
    }
  }

  /** The U and D rows: in-buffer permutations, no orientation rows. */
  lemma UDRows(m: string)
    requires IsUDTurn(m)
    ensures MoveTable(m).Some?
    ensures var d := MoveTable(m).value;
      InBufferPermutation(d.corners.mapping) && InBufferPermutation(d.edges.mapping) &&
      d.cornerOri.None? && d.edgeOri.None? &&
      (d.edges.indices == [0, 1, 2, 3] || d.edges.indices == [4, 5, 6, 7])
  {
    var i := UDEntry(m);
    UDRowShape(i);
    QuarterTurnMappings(MOVES[i].1.corners.mapping);
  }

  /** The first six rows of the table, read off the literal. */
  lemma UDRowShape(i: int)
    requires 0 <= i < 6
    ensures var d := MOVES[i].1;
      d.corners.mapping == d.edges.mapping &&
      d.cornerOri.None? && d.edgeOri.None? &&
      (d.edges.indices == [0, 1, 2, 3] || d.edges.indices == [4, 5, 6, 7]) &&
      (d.corners.mapping == [1, 2, 3, 0] || d.corners.mapping == [3, 0, 1, 2] ||
       d.corners.mapping == [2, 3, 0, 1])
  {
  }

  /** The three mappings of a U or D turn each read every buffer slot once. */
  lemma QuarterTurnMappings(mp: seq<int>)
    requires mp == [1, 2, 3, 0] || mp == [3, 0, 1, 2] || mp == [2, 3, 0, 1]
    ensures InBufferPermutation(mp)
  {
    assert mp[0] in mp && mp[1] in mp && mp[2] in mp && mp[3] in mp;
  }

  /** A U or D turn followed by its table inverse gives back the state. */
  lemma UDTurnUndone(s: CubeState, m: string)
    requires WellFormed(s) && IsUDTurn(m)
    ensures InverseOf(m).Some? && IsUDTurn(InverseOf(m).value)
    ensures Moved(Moved(s, m), InverseOf(m).value) == s
  {
    var i := UDEntry(m);
    InverseOfAt(i);
    InversesOrder();
    var j := UDInversePair(i);
    var inv := INVERSES[i].1;
    MovesOrder();
    PhaseOneOrder();
    assert IsUDTurn(inv);
    MoveTableAt(j);
    UDRows(m);
    UDRows(inv);
    UDRowShape(i);
    UDRowShape(j);
    var d1, d2 := MOVES[i].1, MOVES[j].1;
    QuarterTurnsUndo(d1.corners.mapping, d2.corners.mapping);
    DefUndo(s, d1, d2);
  }

  /** The `inverses` entry of a U or D turn names the row on the same face
      whose mapping turns the other way. */
  lemma UDInversePair(i: int) returns (j: int)
    requires 0 <= i < 6
    ensures 0 <= j < 6 && INVERSES[i].1 == MOVES[j].0
    ensures MOVES[i].1.corners.indices == MOVES[j].1.corners.indices
    ensures MOVES[i].1.edges.indices == MOVES[j].1.edges.indices
    ensures var mp1, mp2 := MOVES[i].1.corners.mapping, MOVES[j].1.corners.mapping;
      (mp1 == [1, 2, 3, 0] && mp2 == [3, 0, 1, 2]) ||
      (mp1 == [3, 0, 1, 2] && mp2 == [1, 2, 3, 0]) ||
      (mp1 == [2, 3, 0, 1] && mp2 == [2, 3, 0, 1])
  {
    j := if i == 0 then 1 else if i == 1 then 0 else if i == 3 then 4 else if i == 4 then 3 else i;
  }

  /** A quarter turn and the opposite quarter turn, or a half turn twice,
      read each buffer slot back into place. */
  lemma QuarterTurnsUndo(mp1: seq<int>, mp2: seq<int>)
    requires (mp1 == [1, 2, 3, 0] && mp2 == [3, 0, 1, 2]) ||
             (mp1 == [3, 0, 1, 2] && mp2 == [1, 2, 3, 0]) ||
             (mp1 == [2, 3, 0, 1] && mp2 == [2, 3, 0, 1])
    ensures forall k :: 0 <= k < 4 ==> mp1[mp2[k]] == k
  {
  }

  /** Two table entries without orientation rows whose cycles list the same
      positions with mappings that undo each other: the second undoes the
      first. */
  lemma DefUndo(s: CubeState, d1: MoveDef, d2: MoveDef)
    requires WellFormed(s) && ValidDef(d1) && ValidDef(d2)
    requires d1.cornerOri.None? && d1.edgeOri.None? && d2.cornerOri.None? && d2.edgeOri.None?
    requires d1.corners.indices == d2.corners.indices && d1.edges.indices == d2.edges.indices
    requires InBufferPermutation(d1.corners.mapping) && InBufferPermutation(d2.corners.mapping)
    requires InBufferPermutation(d1.edges.mapping) && InBufferPermutation(d2.edges.mapping)
    requires forall k :: 0 <= k < 4 ==> d1.corners.mapping[d2.corners.mapping[k]] == k
    requires forall k :: 0 <= k < 4 ==> d1.edges.mapping[d2.edges.mapping[k]] == k
    ensures MovedBy(MovedBy(s, d1), d2) == s
  {
    MovedByReading(s, d1);
    MovedByReading(MovedBy(s, d1), d2);
    PermuteAtUndo(s.cornerPerm, d1.corners, d2.corners);
    PermuteAtUndo(s.edgePerm, d1.edges, d2.edges);
  }

  /** A U or D turn keeps the orientations and keeps permutations permutations. */
  lemma UDTurnKeepsPermutation(s: CubeState, m: string)
    requires WellFormed(s) && IsUDTurn(m)
    ensures Moved(s, m).cornerOri == s.cornerOri && Moved(s, m).edgeOri == s.edgeOri
    ensures IsPermutationOf(s.cornerPerm, 8) ==> IsPermutationOf(Moved(s, m).cornerPerm, 8)
    ensures IsPermutationOf(s.edgePerm, 12) ==> IsPermutationOf(Moved(s, m).edgePerm, 12)
  {
    UDRows(m);
    var d := MoveTable(m).value;
    MovedByReading(s, d);
    PermuteAtSameValues(s.cornerPerm, d.corners);
    PermuteAtSameValues(s.edgePerm, d.edges);
    SameValuesPermutation(s.cornerPerm, Moved(s, m).cornerPerm, 8);
    SameValuesPermutation(s.edgePerm, Moved(s, m).edgePerm, 12);
  }

  /** Position p holds piece a[p], every piece 0..n-1 is somewhere, and
      nothing else is: with n positions, a permutation of 0..n-1. */
  predicate IsPermutationOf(a: seq<int>, n: int)
  {
    |a| == n && (forall p :: 0 <= p < n ==> 0 <= a[p] < n) && (forall v :: 0 <= v < n ==> v in a)
  }

  lemma SameValuesPermutation(a: seq<int>, b: seq<int>, n: int)
    requires |b| == n && forall v :: v in b <==> v in a
    ensures IsPermutationOf(a, n) ==> IsPermutationOf(b, n)
  {
    if IsPermutationOf(a, n) {
      forall p | 0 <= p < n
        ensures 0 <= b[p] < n
      {
        assert b[p] in b;
        var q :| 0 <= q < |a| && a[q] == b[p];
      }
    }
  }

  /** No move ever adds a piece id: every defined entry afterwards was
      present before. */
  lemma MoveNeverAddsPieces(s: CubeState, m: string)
    requires WellFormed(s)
    ensures forall v :: v in Moved(s, m).cornerPerm && v != UNDEF ==> v in s.cornerPerm
    ensures forall v :: v in Moved(s, m).edgePerm && v != UNDEF ==> v in s.edgePerm
  {
    if MoveTable(m).Some? {
      var d := MoveTable(m).value;
      MovedByReading(s, d);
      PermuteAtValues(s.cornerPerm, d.corners);
      PermuteAtValues(s.edgePerm, d.edges);
    }
  }

  /** The corner mapping of every side-turn row has two entries past the
      four-entry buffer: slots 0 and 1, 1 and 2, or 0 and 3. */
  lemma SideRowOverflows(m: string)
    requires IsSideTurn(m)
    ensures MoveTable(m).Some?
    ensures var mp := MoveTable(m).value.corners.mapping;
      (mp[0] >= 4 && mp[1] >= 4) || (mp[1] >= 4 && mp[2] >= 4) || (mp[0] >= 4 && mp[3] >= 4)
  {
    var i := SideEntry(m);
    SideRowShape(i);
  }

  /** The last twelve rows of the table, read off the literal. */
  lemma SideRowShape(i: int)
    requires 6 <= i < 18
    ensures var mp := MOVES[i].1.corners.mapping;
      (mp[0] >= 4 && mp[1] >= 4) || (mp[1] >= 4 && mp[2] >= 4) || (mp[0] >= 4 && mp[3] >= 4)
  {
  }

  /** Every side turn writes UNDEF at two corner positions. */
  lemma SideTurnDropsTwoCorners(s: CubeState, m: string)
    requires WellFormed(s) && IsSideTurn(m)
    ensures exists p, q :: 0 <= p < 8 && 0 <= q < 8 && p != q &&
                           Moved(s, m).cornerPerm[p] == UNDEF && Moved(s, m).cornerPerm[q] == UNDEF
  {
    SideRowOverflows(m);
    MovedByReading(s, MoveTable(m).value);
    var c := MoveTable(m).value.corners;
    var j := if c.mapping[0] >= 4 then 0 else 1;
    var k := if c.mapping[0] < 4 then 2 else if c.mapping[1] >= 4 then 1 else 3;
    assert c.mapping[j] >= 4 && c.mapping[k] >= 4 && j != k;
    PermuteAtOverflow(s.cornerPerm, c, j);
    PermuteAtOverflow(s.cornerPerm, c, k);
    assert Moved(s, m).cornerPerm[c.indices[j]] == UNDEF && Moved(s, m).cornerPerm[c.indices[k]] == UNDEF;
  }

  // ---------------------------------------------------------------------
  // Lost pieces stay lost
  // ---------------------------------------------------------------------

  /** Every corner piece id 0..7 occurs somewhere. */
  predicate HasAllCorners(a: seq<int>)
  {
    forall v :: 0 <= v < 8 ==> v in a
  }

  /** Distinct values that all occur in b are no more than b's length. */
  lemma {:induction false} DistinctValuesBound(ids: seq<int>, b: seq<int>)
    requires forall i, j :: 0 <= i < j < |ids| ==> ids[i] != ids[j]
    requires forall i :: 0 <= i < |ids| ==> ids[i] in b
    ensures |ids| <= |b|
    decreases |ids|
  {
    if ids != [] {
      var k := IndexOf(b, ids[0]);
      var rest := b[..k] + b[k + 1..];
      forall i | 1 <= i < |ids|
        ensures ids[i] in rest
      {
        var j := IndexOf(b, ids[i]);
        if j < k {
          assert rest[j] == ids[i];
        } else {
          assert rest[j - 1] == ids[i];
        }
      }
      DistinctValuesBound(ids[1..], rest);
    }
  }

  /** Eight positions with two holes cannot hold all eight corner pieces. */
  lemma TwoHolesLoseACorner(a: seq<int>, p: int, q: int)
    requires |a| == 8 && 0 <= p < 8 && 0 <= q < 8 && p != q && a[p] == UNDEF && a[q] == UNDEF
    ensures !HasAllCorners(a)
  {
    if HasAllCorners(a) {
      var b := a[..q] + a[q + 1..];
      forall i | 0 <= i < 8
        ensures a[i] in b
      {
        if i < q {
          assert b[i] == a[i];
        } else if i > q {
          assert b[i - 1] == a[i];
        } else if p < q {
          assert b[p] == a[i];
        } else {
          assert b[p - 1] == a[i];
        }
      }
      var ids := [UNDEF, 0, 1, 2, 3, 4, 5, 6, 7];
      forall i | 0 <= i < 9
        ensures ids[i] in b
      {
        if i == 0 {
          assert a[p] in b;
        } else {
          var v := ids[i];
          assert v in a;
          var j :| 0 <= j < 8 && a[j] == v;
          assert a[j] in b;
        }
      }
      DistinctValuesBound(ids, b);
      assert false;
    }
  }

  /** In a permutation of 0..n-1 no piece id sits at two positions. */
  lemma PermutationInjective(a: seq<int>, n: int, p: int, q: int)
    requires IsPermutationOf(a, n) && 0 <= p < q < n
    ensures a[p] != a[q]
  {
    if a[p] == a[q] {
      var b := a[..q] + a[q + 1..];
      var ids := seq(n, v requires 0 <= v < n => v);
      forall i | 0 <= i < n
        ensures ids[i] in b
      {
        assert ids[i] == i && i in a;
        var j :| 0 <= j < n && a[j] == i;
        if j < q {
          assert b[j] == a[j];
        } else if j > q {
          assert b[j - 1] == a[j];
        } else {
          assert b[p] == a[j];
        }
      }
      DistinctValuesBound(ids, b);
      assert false;
    }
  }

  /** The two buffer slots that no corner mapping entry of a side-turn row
      reads: slots 1 and 2 for L, 0 and 3 for R, 2 and 3 for F, 0 and 1
      for B. */
  lemma SideRowUnread(i: int) returns (j1: int, j2: int)
    requires 6 <= i < 18
    ensures 0 <= j1 < j2 < 4
    ensures var mp := MOVES[i].1.corners.mapping;
      |mp| == 4 &&
      mp[0] != j1 && mp[1] != j1 && mp[2] != j1 && mp[3] != j1 &&
      mp[0] != j2 && mp[1] != j2 && mp[2] != j2 && mp[3] != j2
  {
    j1, j2 := if i < 9 then 1 else if i < 12 then 0 else if i < 15 then 2 else 0,
              if i < 9 then 2 else if i < 12 then 3 else if i < 15 then 3 else 1;
  }

  /** The piece in a buffer slot that no mapping entry reads is gone from
      a permutation after the cycle. */
  lemma UnreadSlotLost(a: seq<int>, c: Cycle, j: int)
    requires IsPermutationOf(a, 8) && ValidCycle(c, 8) && 0 <= j < 4
    requires forall k :: 0 <= k < 4 ==> c.mapping[k] != j
    ensures a[c.indices[j]] !in PermuteAt(a, c)
  {
    CycleFacts(c, 8);
    var v := a[c.indices[j]];
    var b := PermuteAt(a, c);
    forall p | 0 <= p < 8
      ensures b[p] != v
    {
      if p in c.indices {
        var k := IndexOf(c.indices, p);
        PermuteAtListed(a, c, k);
        var slot := c.mapping[k];
        if 0 <= slot < 4 {
          var x, y := c.indices[slot], c.indices[j];
          if x < y {
            PermutationInjective(a, 8, x, y);
          } else {
            PermutationInjective(a, 8, y, x);
          }
        }
      } else {
        var y := c.indices[j];
        if p < y {
          PermutationInjective(a, 8, p, y);
        } else {
          PermutationInjective(a, 8, y, p);
        }
      }
    }
  }

  /** A cycle over a permutation of the corners whose mapping never reads
      buffer slots j1 and j2 loses the two pieces held there. */
  lemma CycleLosesTwo(a: seq<int>, c: Cycle, j1: int, j2: int)
    requires IsPermutationOf(a, 8) && ValidCycle(c, 8) && 0 <= j1 < j2 < 4
    requires forall k :: 0 <= k < 4 ==> c.mapping[k] != j1 && c.mapping[k] != j2
    ensures exists v, w :: 0 <= v < w < 8 && v !in PermuteAt(a, c) && w !in PermuteAt(a, c)
  {
    UnreadSlotLost(a, c, j1);
    UnreadSlotLost(a, c, j2);
    var x, y := c.indices[j1], c.indices[j2];
    var v, w := a[x], a[y];
    if x < y {
      PermutationInjective(a, 8, x, y);
    } else {
      PermutationInjective(a, 8, y, x);
    }
    if v < w {
      assert 0 <= v < w < 8 && v !in PermuteAt(a, c) && w !in PermuteAt(a, c);
    } else {
      assert 0 <= w < v < 8 && w !in PermuteAt(a, c) && v !in PermuteAt(a, c);
    }
  }

  /** A side turn applied to a permutation of the corners loses two corner
      pieces: the two held in the buffer slots its mapping never reads. */
  lemma SideTurnLosesTwoCorners(s: CubeState, m: string)
    requires WellFormed(s) && IsPermutationOf(s.cornerPerm, 8) && IsSideTurn(m)
    ensures exists v, w :: 0 <= v < w < 8 && v !in Moved(s, m).cornerPerm && w !in Moved(s, m).cornerPerm
  {
    var j1, j2 := SideMappingUnread(m);
    var d := MoveTable(m).value;
    MovedByReading(s, d);
    var after := Moved(s, m).cornerPerm;
    assert after == PermuteAt(s.cornerPerm, d.corners);
    CycleLosesTwo(s.cornerPerm, d.corners, j1, j2);
    var v, w :| 0 <= v < w < 8 && v !in PermuteAt(s.cornerPerm, d.corners) && w !in PermuteAt(s.cornerPerm, d.corners);
    assert v !in after && w !in after;
  }

  /** SideRowUnread for the row a side-turn token reads. */
  lemma SideMappingUnread(m: string) returns (j1: int, j2: int)
    requires IsSideTurn(m)
    ensures MoveTable(m).Some? && 0 <= j1 < j2 < 4
    ensures var mp := MoveTable(m).value.corners.mapping;
      forall k :: 0 <= k < 4 ==> mp[k] != j1 && mp[k] != j2
  {
    var i := SideEntry(m);
    j1, j2 := SideRowUnread(i);
  }

  /** Once a corner piece is missing, no sequence of moves brings it back,
      so the state can never be solved again. */
  lemma {:induction false} MissingCornerStaysMissing(s: CubeState, moves: seq<string>)
    requires WellFormed(s) && !HasAllCorners(s.cornerPerm)
    ensures !HasAllCorners(Apply(s, moves).cornerPerm)
    ensures !IsSolved(Apply(s, moves))
    decreases |moves|
  {
    if moves != [] {
      MoveNeverAddsPieces(s, moves[0]);
      MissingCornerStaysMissing(Moved(s, moves[0]), moves[1..]);
    } else {
      var v :| 0 <= v < 8 && v !in s.cornerPerm;
      assert s.cornerPerm[v] != v;
      IsSolvedMeans(s);
    }
  }

  // ---------------------------------------------------------------------
  // The phase-1 goal under U and D turns
  // ---------------------------------------------------------------------

  /** Slice edge e is absent from positions 0..3 and present in 4..7. */
  predicate SliceHeld(a: seq<int>, e: int)
    requires |a| == 12
  {
    (forall i :: 0 <= i < 4 ==> a[i] != e) && (exists i :: 4 <= i < 8 && a[i] == e)
  }

  /** A slice edge's first position is a middle-layer position exactly when
      it is absent from positions 0..3 and present in positions 4..7. */
  lemma SliceCharacterization(a: seq<int>, e: int)
    requires |a| == 12
    ensures IndexOf(a, e) in MIDDLE_POSITIONS <==> SliceHeld(a, e)
  {
    var r := IndexOf(a, e);
    assert forall i :: 0 <= i < r ==> a[..r][i] == a[i];
    if r in MIDDLE_POSITIONS {
      assert a[r] == e;
    }
  }

  /** A cycle over the window lo..lo+3 with an in-buffer permutation
      mapping, written as applyMove writes it, permutes that window and
      leaves the rest alone. */
  lemma WindowCycle(a: seq<int>, c: Cycle, lo: int)
    requires |a| == 12 && ValidCycle(c, 12) && InBufferPermutation(c.mapping)
    requires forall k :: 0 <= k < 4 ==> c.indices[k] == lo + k
    ensures forall p :: 0 <= p < 12 && !(lo <= p < lo + 4) ==> Permuted(a, Buffer(a, c.indices), c, 4)[p] == a[p]
    ensures forall k :: 0 <= k < 4 ==> Permuted(a, Buffer(a, c.indices), c, 4)[lo + k] == a[lo + c.mapping[k]]
  {
    forall p | 0 <= p < 12 && !(lo <= p < lo + 4)
      ensures Permuted(a, Buffer(a, c.indices), c, 4)[p] == a[p]
    {
      WindowOutside(a, c, lo, p);
    }
    forall k | 0 <= k < 4
      ensures Permuted(a, Buffer(a, c.indices), c, 4)[lo + k] == a[lo + c.mapping[k]]
    {
      WindowSlot(a, c, lo, k);
    }
  }

  /** A position outside the window keeps its entry. */
  lemma WindowOutside(a: seq<int>, c: Cycle, lo: int, p: int)
    requires |a| == 12 && ValidCycle(c, 12)
    requires forall k :: 0 <= k < 4 ==> c.indices[k] == lo + k
    requires 0 <= p < 12 && !(lo <= p < lo + 4)
    ensures Permuted(a, Buffer(a, c.indices), c, 4)[p] == a[p]
  {
    assert p != c.indices[0] && p != c.indices[1] && p != c.indices[2] && p != c.indices[3];
    assert p !in c.indices;
    PermutedOff(a, c, p);
  }

  /** A position the cycle does not list keeps its entry. */
  lemma PermutedOff(a: seq<int>, c: Cycle, p: int)
    requires ValidCycle(c, |a|) && 0 <= p < |a| && p !in c.indices
    ensures Permuted(a, Buffer(a, c.indices), c, 4)[p] == a[p]
  {
    PermutedWritten(a, c);
  }

  /** The k-th position of the window receives the entry its mapping names. */
  lemma WindowSlot(a: seq<int>, c: Cycle, lo: int, k: int)
    requires |a| == 12 && ValidCycle(c, 12)
    requires forall k :: 0 <= k < 4 ==> c.indices[k] == lo + k
    requires 0 <= k < 4 && 0 <= c.mapping[k] < 4
    ensures Permuted(a, Buffer(a, c.indices), c, 4)[lo + k] == a[lo + c.mapping[k]]
  {
    var j := c.mapping[k];
    var x := PermutedSlotValue(a, c, k);
    assert c.indices[k] == lo + k && c.indices[j] == lo + j;
  }

  /** The j-th listed position after the four writes of a cycle, when its
      mapping reads inside the buffer. */
  lemma PermutedSlotValue(a: seq<int>, c: Cycle, j: int) returns (x: int)
    requires ValidCycle(c, |a|) && 0 <= j < 4 && 0 <= c.mapping[j] < 4
    ensures x == Permuted(a, Buffer(a, c.indices), c, 4)[c.indices[j]]
    ensures x == a[c.indices[c.mapping[j]]]
  {
    PermutedSlot(a, c, j);
    x := Permuted(a, Buffer(a, c.indices), c, 4)[c.indices[j]];
  }

  /** The j-th listed position after the four writes of a cycle. */
  lemma PermutedSlot(a: seq<int>, c: Cycle, j: int)
    requires ValidCycle(c, |a|) && 0 <= j < 4
    ensures Permuted(a, Buffer(a, c.indices), c, 4)[c.indices[j]] == BufferRead(Buffer(a, c.indices), c.mapping[j])
  {
    PermutedWritten(a, c);
  }

  /** What a U or D turn does to the edge permutation: U permutes positions
      0..3 among themselves, D positions 4..7, through an in-buffer mapping. */
  lemma UDEdges(s: CubeState, m: string) returns (lo: int, mapping: seq<int>)
    requires WellFormed(s) && IsUDTurn(m)
    ensures lo == 0 || lo == 4
    ensures InBufferPermutation(mapping)
    ensures forall p :: 0 <= p < 12 && !(lo <= p < lo + 4) ==> Moved(s, m).edgePerm[p] == s.edgePerm[p]
    ensures forall k :: 0 <= k < 4 ==> Moved(s, m).edgePerm[lo + k] == s.edgePerm[lo + mapping[k]]
  {
    UDRows(m);
    var d := MoveTable(m).value;
    lo := d.edges.indices[0];
    mapping := d.edges.mapping;
    DefEdgeWindow(s, d, lo);
  }

  /** A table entry whose edge cycle is the window lo..lo+3 with an
      in-buffer permutation mapping permutes that window of the edge
      permutation and leaves the rest alone. */
  lemma DefEdgeWindow(s: CubeState, d: MoveDef, lo: int)
    requires WellFormed(s) && ValidDef(d) && InBufferPermutation(d.edges.mapping)
    requires forall k :: 0 <= k < 4 ==> d.edges.indices[k] == lo + k
    ensures forall p :: 0 <= p < 12 && !(lo <= p < lo + 4) ==> MovedBy(s, d).edgePerm[p] == s.edgePerm[p]
    ensures forall k :: 0 <= k < 4 ==> MovedBy(s, d).edgePerm[lo + k] == s.edgePerm[lo + d.edges.mapping[k]]
  {
    WindowCycle(s.edgePerm, d.edges, lo);
  }


  /** Permuting positions 0..3 or 4..7 among themselves keeps a slice edge held. */
  lemma WindowKeepsSliceHeld(a: seq<int>, b: seq<int>, e: int, lo: int, mapping: seq<int>)
    requires |a| == 12 && |b| == 12 && (lo == 0 || lo == 4) && InBufferPermutation(mapping)
    requires forall p :: 0 <= p < 12 && !(lo <= p < lo + 4) ==> b[p] == a[p]
    requires forall k :: 0 <= k < 4 ==> b[lo + k] == a[lo + mapping[k]]
    requires SliceHeld(a, e)
    ensures SliceHeld(b, e)
  {
    var i :| 4 <= i < 8 && a[i] == e;
    if lo == 0 {
      assert b[i] == e;
      forall p | 0 <= p < 4
        ensures b[p] != e
      {
        assert b[0 + p] == a[0 + mapping[p]];
      }
    } else {
      var k := IndexOf(mapping, i - 4);
      assert b[4 + k] == e;
    }
  }

  /** A U or D turn keeps the phase-1 goal. */
  lemma UDTurnKeepsPhase1Goal(s: CubeState, m: string)
    requires WellFormed(s) && IsUDTurn(m) && IsPhase1Goal(s)
    ensures IsPhase1Goal(Moved(s, m))
  {
    UDTurnKeepsPermutation(s, m);
    var lo, mapping := UDEdges(s, m);
    var a, b := s.edgePerm, Moved(s, m).edgePerm;
    forall k | 0 <= k < |SLICE_EDGES|
      ensures IndexOf(b, SLICE_EDGES[k]) in MIDDLE_POSITIONS
    {
      SliceCharacterization(a, SLICE_EDGES[k]);
      SliceCharacterization(b, SLICE_EDGES[k]);
      WindowKeepsSliceHeld(a, b, SLICE_EDGES[k], lo, mapping);
    }
  }

  lemma SolvedIsPhase1Goal()
    ensures IsPhase1Goal(Solved())
  {
    var s := Solved();
    var a := s.edgePerm;
    assert AllZero(s.cornerOri) && AllZero(s.edgeOri);
    forall k | 0 <= k < |SLICE_EDGES|
      ensures IndexOf(a, SLICE_EDGES[k]) in MIDDLE_POSITIONS
    {
      var e := SLICE_EDGES[k];
      assert e == 4 + k && a[4 + k] == e;
      assert forall i :: 0 <= i < 4 ==> a[i] == i;
      assert SliceHeld(a, e);
      SliceCharacterization(a, e);
    }
  }

  // ---------------------------------------------------------------------
  // No scramble can be solved by the two-phase search
  // ---------------------------------------------------------------------

  /** From a phase-1 goal state or a state missing a corner piece, every
      token sequence leads to one or the other: U/D turns keep the goal,
      unknown tokens change nothing, and a side turn loses a corner. */
  lemma {:induction false} GoalOrMissingCorner(s: CubeState, moves: seq<string>)
    requires WellFormed(s) && (IsPhase1Goal(s) || !HasAllCorners(s.cornerPerm))
    ensures IsPhase1Goal(Apply(s, moves)) || !HasAllCorners(Apply(s, moves).cornerPerm)
    decreases |moves|
  {
    if moves != [] {
      var m := moves[0];
      var next := Moved(s, m);
      TableKeys(m);
      PhaseOneTokens(m);
      if IsSideTurn(m) {
        SideTurnDropsTwoCorners(s, m);
        var p, q :| 0 <= p < 8 && 0 <= q < 8 && p != q &&
                    next.cornerPerm[p] == UNDEF && next.cornerPerm[q] == UNDEF;
        TwoHolesLoseACorner(next.cornerPerm, p, q);
      } else if !IsPhase1Goal(s) {
        MoveNeverAddsPieces(s, m);
        var v :| 0 <= v < 8 && v !in s.cornerPerm;
        assert v !in next.cornerPerm;
      } else if IsUDTurn(m) {
        UDTurnKeepsPhase1Goal(s, m);
      }
      GoalOrMissingCorner(next, moves[1..]);
    }
  }

  /** Whatever the scramble, the scrambled state already meets the phase-1
      goal, or no sequence of moves at all leads from it to the solved state. */
  lemma ScrambleOutcome(tokens: seq<string>, moves: seq<string>)
    ensures IsPhase1Goal(Apply(Solved(), tokens)) || !IsSolved(Apply(Apply(Solved(), tokens), moves))
  {
    SolvedIsPhase1Goal();
    GoalOrMissingCorner(Solved(), tokens);
    var s := Apply(Solved(), tokens);
    if !IsPhase1Goal(s) {
      MissingCornerStaysMissing(s, moves);
    }
  }

  // ---------------------------------------------------------------------
  // Orientations
  // ---------------------------------------------------------------------

  /** Corner twists in {0, 1, 2} and edge flips in {0, 1}. */
  predicate OrientationsInRange(s: CubeState)
  {
    (forall i :: 0 <= i < |s.cornerOri| ==> 0 <= s.cornerOri[i] < 3) &&
    (forall i :: 0 <= i < |s.edgeOri| ==> 0 <= s.edgeOri[i] < 2)
  }

  function Sum(a: seq<int>): int
  {
    if a == [] then 0 else a[0] + Sum(a[1..])
  }

  lemma {:induction false} SumUpdate(a: seq<int>, i: int, v: int)
    requires 0 <= i < |a|
    ensures Sum(a[i := v]) == Sum(a) - a[i] + v
  {
    if i == 0 {
      assert a[i := v][1..] == a[1..];
    } else {
      assert a[i := v][1..] == a[1..][i - 1 := v];
      SumUpdate(a[1..], i - 1, v);
    }
  }

  /** Every orientation row of the table adds 6 in all, one or two at a time. */
  lemma TwistRows(m: string)
    requires MoveTable(m).Some? && MoveTable(m).value.cornerOri.Some?
    ensures var delta := MoveTable(m).value.cornerOri.value;
      Sum(delta) == 6 && forall k :: 0 <= k < |delta| ==> 1 <= delta[k] <= 2
  {
    var i := MoveTableEntry(m);
    TwistRowShape(i);
    TwistDeltas(MOVES[i].1.cornerOri.value);
  }

  /** Every corner-orientation row of the table, read off the literal. */
  lemma TwistRowShape(i: int)
    requires 0 <= i < |MOVES| && MOVES[i].1.cornerOri.Some?
    ensures MOVES[i].1.cornerOri.value == [1, 2, 1, 2] || MOVES[i].1.cornerOri.value == [2, 1, 2, 1]
  {
  }

  lemma TwistDeltas(delta: seq<int>)
    requires delta == [1, 2, 1, 2] || delta == [2, 1, 2, 1]
    ensures Sum(delta) == 6 && forall k :: 0 <= k < |delta| ==> 1 <= delta[k] <= 2
  {
    assert delta[1..][1..] == delta[2..] && delta[2..][1..] == delta[3..] && delta[3..][1..] == [];
    assert Sum(delta[3..]) == delta[3];
    assert Sum(delta[2..]) == 3;
  }

  /** Appending one entry adds it to the total. */
  lemma {:induction false} SumSnoc(a: seq<int>, x: int)
    ensures Sum(a + [x]) == Sum(a) + x
    decreases |a|
  {
    if a != [] {
      assert (a + [x])[1..] == a[1..] + [x];
      SumSnoc(a[1..], x);
    }
  }

  /** The remainder of a non-negative value is the value less a multiple
      of n. */
  lemma RemSplit(x: int, n: int)
    requires x >= 0 && n > 0
    ensures JsRem(x, n) == x - n * (x / n)
  {
  }

  /** The first k twists, over twists in 0..2 by non-negative deltas, leave
      every twist in 0..2 and add the first k deltas to the total, less a
      multiple of 3. */
  lemma {:induction false} TwistedTotal(a: seq<int>, indices: seq<int>, delta: seq<int>, k: nat) returns (q: int)
    requires |delta| == |indices| && k <= |indices|
    requires forall j :: 0 <= j < |indices| ==> 0 <= indices[j] < |a|
    requires forall i :: 0 <= i < |a| ==> 0 <= a[i] < 3
    requires forall j :: 0 <= j < |delta| ==> 0 <= delta[j]
    ensures forall i :: 0 <= i < |a| ==> 0 <= Twisted(a, indices, delta, k)[i] < 3
    ensures Sum(Twisted(a, indices, delta, k)) == Sum(a) + Sum(delta[..k]) - 3 * q
    decreases k
  {
    if k == 0 {
      q := 0;
      assert delta[..0] == [];
    } else {
      var qPrev := TwistedTotal(a, indices, delta, k - 1);
      var prev := Twisted(a, indices, delta, k - 1);
      var i := indices[k - 1];
      var step, next := TwistStep(prev, i, delta[k - 1]);
      assert Twisted(a, indices, delta, k) == next;
      SumPrefix(delta, k);
      q := qPrev + step;
    }
  }

  /** The sum of the first k entries is that of the first k - 1 plus the
      k-th. */
  lemma SumPrefix(a: seq<int>, k: int)
    requires 0 < k <= |a|
    ensures Sum(a[..k]) == Sum(a[..k - 1]) + a[k - 1]
  {
    SumSnoc(a[..k - 1], a[k - 1]);
    assert a[..k] == a[..k - 1] + [a[k - 1]];
  }

  /** One twist of a position, over twists in 0..2 by a non-negative
      delta, keeps every twist in 0..2 and adds the delta to the total,
      less a multiple of 3. */
  lemma TwistStep(prev: seq<int>, i: int, d: int) returns (q: int, next: seq<int>)
    requires 0 <= i < |prev| && 0 <= d
    requires forall p :: 0 <= p < |prev| ==> 0 <= prev[p] < 3
    ensures next == prev[i := JsRem(prev[i] + d, 3)]
    ensures forall p :: 0 <= p < |next| ==> 0 <= next[p] < 3
    ensures Sum(next) == Sum(prev) + d - 3 * q
  {
    var x := prev[i] + d;
    RemSplit(x, 3);
    SumUpdate(prev, i, JsRem(x, 3));
    q := x / 3;
    next := prev[i := JsRem(x, 3)];
  }

  /** The first k flips, over flips in 0..1, leave every flip in 0..1 and
      add k to the total, less a multiple of 2. */
  lemma {:induction false} FlippedTotal(a: seq<int>, indices: seq<int>, k: nat) returns (q: int)
    requires k <= |indices|
    requires forall j :: 0 <= j < |indices| ==> 0 <= indices[j] < |a|
    requires forall i :: 0 <= i < |a| ==> 0 <= a[i] < 2
    ensures forall i :: 0 <= i < |a| ==> 0 <= Flipped(a, indices, k)[i] < 2
    ensures Sum(Flipped(a, indices, k)) == Sum(a) + k - 2 * q
    decreases k
  {
    if k == 0 {
      q := 0;
    } else {
      var qPrev := FlippedTotal(a, indices, k - 1);
      var prev := Flipped(a, indices, k - 1);
      var step, next := FlipStep(prev, indices[k - 1]);
      assert Flipped(a, indices, k) == next;
      q := qPrev + step;
    }
  }

  /** One flip of a position, over flips in 0..1, keeps every flip in 0..1
      and adds 1 to the total, less a multiple of 2. */
  lemma FlipStep(prev: seq<int>, i: int) returns (q: int, next: seq<int>)
    requires 0 <= i < |prev|
    requires forall p :: 0 <= p < |prev| ==> 0 <= prev[p] < 2
    ensures next == prev[i := JsRem(prev[i] + 1, 2)]
    ensures forall p :: 0 <= p < |next| ==> 0 <= next[p] < 2
    ensures Sum(next) == Sum(prev) + 1 - 2 * q
  {
    var x := prev[i] + 1;
    RemSplit(x, 2);
    SumUpdate(prev, i, JsRem(x, 2));
    q := x / 2;
    next := prev[i := JsRem(x, 2)];
  }

  /** A total that differs by 6 less a multiple of 3 has the same
      remainder mod 3. */
  lemma ShiftRem3(y: int, x: int, q: int)
    requires y == x + 6 - 3 * q
    ensures y % 3 == x % 3
  {
    assert y == 3 * (x / 3 + 2 - q) + x % 3;
  }

  /** A total that differs by 4 less a multiple of 2 has the same
      remainder mod 2. */
  lemma ShiftRem2(y: int, x: int, q: int)
    requires y == x + 4 - 2 * q
    ensures y % 2 == x % 2
  {
    assert y == 2 * (x / 2 + 2 - q) + x % 2;
  }

  /** A table entry whose twist deltas are non-negative and add up to 6
      keeps corner twists in 0..2 and their total mod 3. */
  lemma DefKeepsCornerTwists(s: CubeState, d: MoveDef)
    requires WellFormed(s) && ValidDef(d) && OrientationsInRange(s)
    requires d.cornerOri.Some? ==>
               Sum(d.cornerOri.value) == 6 && forall k :: 0 <= k < |d.cornerOri.value| ==> 0 <= d.cornerOri.value[k]
    ensures forall i :: 0 <= i < 8 ==> 0 <= MovedBy(s, d).cornerOri[i] < 3
    ensures Sum(MovedBy(s, d).cornerOri) % 3 == Sum(s.cornerOri) % 3
  {
    if d.cornerOri.Some? {
      var delta := d.cornerOri.value;
      CycleFacts(d.corners, 8);
      var q := TwistedTotal(s.cornerOri, d.corners.indices, delta, 4);
      assert delta[..4] == delta;
      ShiftRem3(Sum(MovedBy(s, d).cornerOri), Sum(s.cornerOri), q);
    }
  }

  /** Every table entry keeps edge flips in 0..1 and their total mod 2. */
  lemma DefKeepsEdgeFlips(s: CubeState, d: MoveDef)
    requires WellFormed(s) && ValidDef(d) && OrientationsInRange(s)
    ensures forall i :: 0 <= i < 12 ==> 0 <= MovedBy(s, d).edgeOri[i] < 2
    ensures Sum(MovedBy(s, d).edgeOri) % 2 == Sum(s.edgeOri) % 2
  {
    if d.edgeOri.Some? {
      CycleFacts(d.edges, 12);
      var q := FlippedTotal(s.edgeOri, d.edges.indices, 4);
      ShiftRem2(Sum(MovedBy(s, d).edgeOri), Sum(s.edgeOri), q);
    }
  }

  /** Every move keeps corner twists in 0..2 and edge flips in 0..1, keeps
      the corner twist total mod 3 and the edge flip total mod 2. */
  lemma MoveKeepsOrientationInvariants(s: CubeState, m: string)
    requires WellFormed(s) && OrientationsInRange(s)
    ensures OrientationsInRange(Moved(s, m))
    ensures Sum(Moved(s, m).cornerOri) % 3 == Sum(s.cornerOri) % 3
    ensures Sum(Moved(s, m).edgeOri) % 2 == Sum(s.edgeOri) % 2
  {
    if MoveTable(m).Some? {
      var d := MoveTable(m).value;
      if d.cornerOri.Some? {
        TwistRows(m);
      }
      DefKeepsCornerTwists(s, d);
      DefKeepsEdgeFlips(s, d);
    }
  }
}
