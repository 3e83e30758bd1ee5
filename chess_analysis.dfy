/**
 * The capture analyzer of the chess-position viewer.
 *
 * The rules engine (move generation, SAN, board lookup, PGN/FEN loading) is a
 * foreign library; it enters this model only as plain inputs: the list of
 * legal moves it enumerates (or its failure to enumerate them), a board
 * lookup from square to what stands there, and a load outcome for the two
 * adapters.
 */
module ChessAnalysis {

  datatype Option<T> = None | Some(value: T)

  /** A square name such as "e4". */
  type Square = string

  /** The colour of a piece: "w" or "b" in the rules engine. */
  datatype Color = White | Black

  /** A piece on the board: its colour and its one-letter type ("p", "n", ...). */
  datatype Piece = Piece(color: Color, kind: string)

  /** One verbose legal move as the rules engine reports it. */
  datatype Move = Move(from: Square, to: Square, captured: Option<string>, san: string)

  /**
   * What a board lookup answers for one square: nothing, a piece, or a
   * failure of the lookup itself (a thrown exception).
   */
  datatype Cell = Empty | Occupied(piece: Piece) | LookupFault

  /** The outcome of asking the rules engine for every legal move. */
  datatype Moves = Enumerated(list: seq<Move>) | EnumerationFailed

  /** The part of a loaded game the analyzer reads. */
  datatype Position = Position(moves: Moves, get: Square -> Cell)

  /** The outcome of loading a game record or a board snapshot. */
  datatype LoadOutcome = Loaded(position: Position) | LoadFailed

  /** One entry of the list of capture moves. */
  datatype CaptureInfo = CaptureInfo(from: Square, to: Square, color: Color, piece: string, captured: string)

  /** The analyzer's result: a counter per colour and the list of capture moves. */
  datatype ChessStats = ChessStats(whiteCaptures: nat, blackCaptures: nat, captureMoves: seq<CaptureInfo>)

  /** The result returned when nothing could be analyzed. */
  const ZeroStats := ChessStats(0, 0, [])

  // ---------------------------------------------------------------------
  // Classification of a single move
  // ---------------------------------------------------------------------

  /** `move.captured` is truthy: present and not the empty string. */
  predicate HasCaptured(m: Move) {
    m.captured.Some? && m.captured.value != ""
  }

  /** The move counts as a capture: a captured piece, or an 'x' in its SAN. */
  predicate IsCapture(m: Move) {
    HasCaptured(m) || 'x' in m.san
  }

  /** The move produces an entry: it is a capture and its origin holds a piece. */
  predicate Qualifies(m: Move, get: Square -> Cell) {
    IsCapture(m) && get(m.from).Occupied?
  }

  /** The move stops the analysis: it is a capture and the lookup of its origin fails. */
  predicate Faults(m: Move, get: Square -> Cell) {
    IsCapture(m) && get(m.from).LookupFault?
  }

  /** The captured piece's type, or the placeholder "piece" when the move names none. */
  function CapturedLabel(m: Move): string {
    if HasCaptured(m) then m.captured.value else "piece"
  }

  /** The entry built for a capture move `m` whose origin holds `p`. */
  function Entry(m: Move, p: Piece): CaptureInfo {
    CaptureInfo(m.from, m.to, p.color, p.kind, CapturedLabel(m))
  }

  /** What one move contributes to the list of capture moves. */
  function Contribution(m: Move, get: Square -> Cell): seq<CaptureInfo> {
    if Qualifies(m, get) then [Entry(m, get(m.from).piece)] else []
  }

  // ---------------------------------------------------------------------
  // Specification of the whole walk
  // ---------------------------------------------------------------------

  /** The entries produced by walking `s` in order, none of which faults. */
  function Filter(s: seq<Move>, get: Square -> Cell): seq<CaptureInfo> {
    if s == [] then [] else Filter(s[..|s| - 1], get) + Contribution(s[|s| - 1], get)
  }

  /** The positions in `s` of the moves that produce an entry, in order. */
  function KeptIndices(s: seq<Move>, get: Square -> Cell): seq<int> {
    if s == [] then []
    else KeptIndices(s[..|s| - 1], get) + (if Qualifies(s[|s| - 1], get) then [|s| - 1] else [])
  }

  /** The number of entries of `es` whose piece has colour `c`. */
  function CountColor(es: seq<CaptureInfo>, c: Color): nat {
    if es == [] then 0
    else CountColor(es[..|es| - 1], c) + (if es[|es| - 1].color == c then 1 else 0)
  }

  /**
   * How many moves the walk gets through: the index of the first move whose
   * origin lookup fails, or the number of moves when none does.
   */
  function Halt(s: seq<Move>, get: Square -> Cell): (n: nat)
    ensures n <= |s|
    ensures forall j :: 0 <= j < n ==> !Faults(s[j], get)
    ensures n < |s| ==> Faults(s[n], get)
  {
    if s == [] then 0
    else if Faults(s[0], get) then 0
    else 1 + Halt(s[1..], get)
  }

  /** The result built from a list of entries, with counters that agree with it. */
  function Tally(es: seq<CaptureInfo>): ChessStats {
    ChessStats(CountColor(es, White), CountColor(es, Black), es)
  }

  /** What the analyzer returns for `pos`. */
  function Analyze(pos: Position): ChessStats {
    match pos.moves
    case EnumerationFailed => ZeroStats
    case Enumerated(ms) => Tally(Filter(ms[..Halt(ms, pos.get)], pos.get))
  }

  /** For each entry of `Analyze(pos)`, the index of the move it was built from. */
  function Origins(pos: Position): seq<int> {
    match pos.moves
    case EnumerationFailed => []
    case Enumerated(ms) => KeptIndices(ms[..Halt(ms, pos.get)], pos.get)
  }

  // ---------------------------------------------------------------------
  // The analyzer and its adapters
  // ---------------------------------------------------------------------

  /**
   * Walks the legal moves once, keeping every capture whose origin holds a
   * piece and counting it for that piece's colour. A failing enumeration gives
   * the zero result; a failing lookup ends the walk with what was found so far.
   */
  method AnalyzePosition(pos: Position) returns (stats: ChessStats)
    ensures stats == Analyze(pos)
    ensures pos.moves.EnumerationFailed? ==> stats == ZeroStats
    ensures stats.whiteCaptures == CountColor(stats.captureMoves, White)
    ensures stats.blackCaptures == CountColor(stats.captureMoves, Black)
  {
    var whiteCaptures: nat := 0;
    var blackCaptures: nat := 0;
    var captureMoves: seq<CaptureInfo> := [];
    match pos.moves {
      case EnumerationFailed =>
      case Enumerated(moves) =>
        var i := 0;
        while i < |moves|
          invariant 0 <= i <= |moves|
          invariant forall j :: 0 <= j < i ==> !Faults(moves[j], pos.get)
          invariant captureMoves == Filter(moves[..i], pos.get)
          invariant whiteCaptures == CountColor(captureMoves, White)
          invariant blackCaptures == CountColor(captureMoves, Black)
        {
          var move := moves[i];
          assert moves[..i + 1][..i] == moves[..i];
          if (move.captured.Some? && move.captured.value != "") || 'x' in move.san {
            var cell := pos.get(move.from);
            if cell.LookupFault? {
              break;
            }
            if cell.Occupied? {
              var piece := cell.piece;
              var captureInfo := CaptureInfo(move.from, move.to, piece.color, piece.kind,
                                             if move.captured.Some? && move.captured.value != ""
                                             then move.captured.value else "piece");
              captureMoves := captureMoves + [captureInfo];
              if piece.color == White {
                whiteCaptures := whiteCaptures + 1;
              } else {
                blackCaptures := blackCaptures + 1;
              }
            }
          }
          i := i + 1;
        }
        assert moves[..Halt(moves, pos.get)] == moves[..i];
    }
    stats := ChessStats(whiteCaptures, blackCaptures, captureMoves);
  }

  /**
   * Loads a game record with `loadPgn` and analyzes the resulting position;
   * a failed load gives the zero result.
   */
  method AnalyzeFromPgn(pgn: string, loadPgn: string -> LoadOutcome) returns (stats: ChessStats)
    ensures loadPgn(pgn).LoadFailed? ==> stats == ZeroStats
    ensures loadPgn(pgn).Loaded? ==> stats == Analyze(loadPgn(pgn).position)
  {
    match loadPgn(pgn) {
      case LoadFailed =>
        stats := ZeroStats;
      case Loaded(game) =>
        stats := AnalyzePosition(game);
    }
  }

  /**
   * Loads a board snapshot with `loadFen` and analyzes the resulting position;
   * a failed load gives the zero result.
   */
  method AnalyzeFromFen(fen: string, loadFen: string -> LoadOutcome) returns (stats: ChessStats)
    ensures loadFen(fen).LoadFailed? ==> stats == ZeroStats
    ensures loadFen(fen).Loaded? ==> stats == Analyze(loadFen(fen).position)
  {
    match loadFen(fen) {
      case LoadFailed =>
        stats := ZeroStats;
      case Loaded(game) =>
        stats := AnalyzePosition(game);
    }
  }
}
