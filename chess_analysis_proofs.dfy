/**
 * Properties of the capture analyzer's specification: the counters agree
 * with the list, the list is an order-preserving selection of the legal
 * moves, exactly the qualifying moves before the first failing lookup are
 * selected, and each entry carries the fields of its move and piece.
 */
module ChessAnalysisProofs {
  import opened ChessAnalysis

  // ---------------------------------------------------------------------
  // Counters and list
  // ---------------------------------------------------------------------

  /** Every entry is counted for exactly one of the two colours. */
  lemma {:induction false} ColorCountsPartition(es: seq<CaptureInfo>)
    ensures CountColor(es, White) + CountColor(es, Black) == |es|
    ensures CountColor(es, White) <= |es| && CountColor(es, Black) <= |es|
  {
    if es != [] {
      ColorCountsPartition(es[..|es| - 1]);
    }
  }

  /**
   * Whatever the position, even when a failing lookup stopped the walk, the
   * two counters add up to the length of the list and each counts the
   * entries of its colour.
   */
  lemma AnalyzeCountsAgree(pos: Position)
    ensures Analyze(pos).whiteCaptures + Analyze(pos).blackCaptures == |Analyze(pos).captureMoves|
    ensures Analyze(pos).whiteCaptures == CountColor(Analyze(pos).captureMoves, White)
    ensures Analyze(pos).blackCaptures == CountColor(Analyze(pos).captureMoves, Black)
  {
    ColorCountsPartition(Analyze(pos).captureMoves);
  }

  // ---------------------------------------------------------------------
  // The walk over a list of moves
  // ---------------------------------------------------------------------

  /**
   * The walk keeps one entry per selected move: entry k is built from move
   * `KeptIndices(s, get)[k]`, which qualifies.
   */
  lemma {:induction false} FilterFromKeptIndices(s: seq<Move>, get: Square -> Cell)
    ensures |KeptIndices(s, get)| == |Filter(s, get)| <= |s|
    ensures forall k :: 0 <= k < |KeptIndices(s, get)| ==>
              var j := KeptIndices(s, get)[k];
              0 <= j < |s| && Qualifies(s[j], get) && Filter(s, get)[k] == Entry(s[j], get(s[j].from).piece)
  {
    if s != [] {
      var t := s[..|s| - 1];
      FilterFromKeptIndices(t, get);
      forall k | 0 <= k < |KeptIndices(t, get)|
        ensures KeptIndices(s, get)[k] == KeptIndices(t, get)[k] && s[KeptIndices(t, get)[k]] == t[KeptIndices(t, get)[k]]
      {
      }
    }
  }

  /** The selected indices are strictly increasing: the walk keeps the moves' order. */
  lemma {:induction false} KeptIndicesIncreasing(s: seq<Move>, get: Square -> Cell)
    ensures forall k, l :: 0 <= k < l < |KeptIndices(s, get)| ==> KeptIndices(s, get)[k] < KeptIndices(s, get)[l]
  {
    if s != [] {
      var t := s[..|s| - 1];
      KeptIndicesIncreasing(t, get);
      FilterFromKeptIndices(t, get);
    }
  }

  /** A move of `s` is selected exactly when it qualifies. */
  lemma {:induction false} KeptIndicesExact(s: seq<Move>, get: Square -> Cell)
    ensures forall i :: 0 <= i < |s| ==> (i in KeptIndices(s, get) <==> Qualifies(s[i], get))
  {
    if s != [] {
      var t := s[..|s| - 1];
      KeptIndicesExact(t, get);
      FilterFromKeptIndices(t, get);
      forall i | 0 <= i < |s|
        ensures i in KeptIndices(s, get) <==> Qualifies(s[i], get)
      {
        if i < |t| {
          assert s[i] == t[i];
          assert i != |s| - 1;
        }
      }
    }
  }

  // ---------------------------------------------------------------------
  // The analyzer's result
  // ---------------------------------------------------------------------

  /**
   * The list of capture moves is an order-preserving selection of the legal
   * moves: one origin per entry, strictly increasing, each before the first
   * failing lookup.
   */
  lemma AnalyzeKeepsOrder(pos: Position)
    ensures |Origins(pos)| == |Analyze(pos).captureMoves|
    ensures forall k, l :: 0 <= k < l < |Origins(pos)| ==> Origins(pos)[k] < Origins(pos)[l]
    ensures pos.moves.Enumerated? ==>
              forall k :: 0 <= k < |Origins(pos)| ==> 0 <= Origins(pos)[k] < Halt(pos.moves.list, pos.get)
  {
    if pos.moves.Enumerated? {
      var prefix := pos.moves.list[..Halt(pos.moves.list, pos.get)];
      FilterFromKeptIndices(prefix, pos.get);
      KeptIndicesIncreasing(prefix, pos.get);
    }
  }

  /**
   * A legal move yields an entry exactly when it comes before the first
   * failing lookup, it is a capture (a captured piece or an 'x' in its SAN)
   * and its origin square holds a piece.
   */
  lemma AnalyzeMembership(pos: Position, i: int)
    requires pos.moves.Enumerated? && 0 <= i < |pos.moves.list|
    ensures i in Origins(pos) <==>
              i < Halt(pos.moves.list, pos.get) && IsCapture(pos.moves.list[i]) && pos.get(pos.moves.list[i].from).Occupied?
  {
    var ms := pos.moves.list;
    var prefix := ms[..Halt(ms, pos.get)];
    FilterFromKeptIndices(prefix, pos.get);
    KeptIndicesExact(prefix, pos.get);
    if i < |prefix| {
      assert prefix[i] == ms[i];
    }
  }

  /** When no lookup fails, a legal move yields an entry exactly when it qualifies. */
  lemma AnalyzeMembershipWithoutFault(pos: Position, i: int)
    requires pos.moves.Enumerated? && 0 <= i < |pos.moves.list|
    requires forall j :: 0 <= j < |pos.moves.list| ==> !Faults(pos.moves.list[j], pos.get)
    ensures i in Origins(pos) <==> Qualifies(pos.moves.list[i], pos.get)
  {
    AnalyzeMembership(pos, i);
  }

  /**
   * Entry k is built from the move at `Origins(pos)[k]`: its squares are the
   * move's, its colour and piece type are those of the piece on the origin
   * square, and its captured type is the move's, or "piece" when the move
   * names none.
   */
  lemma AnalyzeEntryFields(pos: Position, k: int)
    requires 0 <= k < |Analyze(pos).captureMoves|
    ensures pos.moves.Enumerated? && k < |Origins(pos)|
    ensures 0 <= Origins(pos)[k] < |pos.moves.list|
    ensures var m := pos.moves.list[Origins(pos)[k]];
            var e := Analyze(pos).captureMoves[k];
            IsCapture(m) && pos.get(m.from).Occupied? &&
            e.from == m.from && e.to == m.to &&
            e.color == pos.get(m.from).piece.color &&
            e.piece == pos.get(m.from).piece.kind &&
            e.captured == (if m.captured.Some? && m.captured.value != "" then m.captured.value else "piece")
  {
    var ms := pos.moves.list;
    var prefix := ms[..Halt(ms, pos.get)];
    FilterFromKeptIndices(prefix, pos.get);
    var j := KeptIndices(prefix, pos.get)[k];
    assert prefix[j] == ms[j];
  }

  /**
   * A failing lookup ends the walk: the result is the one for the moves
   * enumerated before the failing move.
   */
  lemma AnalyzeStopsAtFault(ms: seq<Move>, get: Square -> Cell)
    requires Halt(ms, get) < |ms|
    ensures Analyze(Position(Enumerated(ms), get)) == Analyze(Position(Enumerated(ms[..Halt(ms, get)]), get))
  {
    var p := ms[..Halt(ms, get)];
    HaltOfFaultFreePrefix(ms, get, p);
    assert p[..|p|] == p;
  }

  /** The moves enumerated after the failing move do not change the result. */
  lemma AnalyzeIgnoresRest(ms: seq<Move>, get: Square -> Cell, rest: seq<Move>)
    requires Halt(ms, get) < |ms|
    ensures Analyze(Position(Enumerated(ms), get)) == Analyze(Position(Enumerated(ms[..Halt(ms, get) + 1] + rest), get))
  {
    var q := ms[..Halt(ms, get) + 1] + rest;
    HaltAtFault(ms, get, q);
  }

  /** A prefix of the moves before the first failing lookup is walked to its end. */
  lemma HaltOfFaultFreePrefix(ms: seq<Move>, get: Square -> Cell, p: seq<Move>)
    requires p == ms[..Halt(ms, get)]
    ensures Halt(p, get) == |p|
  {
  }

  /** Keeping the moves up to the failing one, whatever follows, keeps the failing index. */
  lemma HaltAtFault(ms: seq<Move>, get: Square -> Cell, q: seq<Move>)
    requires Halt(ms, get) < |ms|
    requires Halt(ms, get) < |q| && q[..Halt(ms, get) + 1] == ms[..Halt(ms, get) + 1]
    ensures Halt(q, get) == Halt(ms, get)
    ensures q[..Halt(q, get)] == ms[..Halt(ms, get)]
  {
    var h := Halt(ms, get);
    forall j | 0 <= j <= h
      ensures q[j] == ms[j]
    {
      assert q[j] == q[..h + 1][j] == ms[..h + 1][j];
    }
    HaltUnique(q, get, h);
    assert q[..h] == ms[..h];
  }

  /** The first failing index is the only index before which nothing fails and at which a move fails. */
  lemma HaltUnique(s: seq<Move>, get: Square -> Cell, n: int)
    requires 0 <= n < |s| && Faults(s[n], get)
    requires forall j :: 0 <= j < n ==> !Faults(s[j], get)
    ensures Halt(s, get) == n
  {
  }
}
