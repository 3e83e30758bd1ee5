# Capture analyzer of the chess-position viewer

This project models the capture analyzer of a small chess viewer. The viewer
loads a game record (PGN) or a board snapshot (FEN). It then lists every legal
move of the side to move that captures. For each capture it records the
origin and destination squares, the mover's colour and piece type, and the
captured piece type. It also counts the captures per colour.

The rules engine (chess.js) is a foreign library. It enters the model as
plain inputs:

- `Position.moves`: the legal moves it enumerates, in its order, or
  `EnumerationFailed` when the enumeration throws.
- `Position.get`: the board lookup, from square to `Empty`,
  `Occupied(piece)` or `LookupFault` (the lookup throws).
- `LoadOutcome`: what `loadPgn` and `load` produce, either `Loaded(position)`
  or `LoadFailed`. The adapters take the loader as a parameter.

`ChessAnalysis.Analyze` is the specification of the whole walk. The method
`ChessAnalysis.AnalyzePosition` is the loop of the source, with its two
counters and its growing list, proved equal to it. The lemmas in
`ChessAnalysisProofs` state what the source promises about that result.

A move counts as a capture when `move.captured` is truthy or its SAN
contains `'x'`. Truthy means present and not the empty string, as in
JavaScript. `blackCaptures` counts every piece whose colour is not white. With
two colours, that means black.

## Model

| member | source | states |
|---|---|---|
| ChessAnalysis.AnalyzePosition | src/utils/chessAnalysis.ts:16-66 | The loop's counters and list equal `Analyze(pos)`. A failing enumeration gives zero counts and an empty list. Each counter equals the number of entries of its colour. |
| ChessAnalysis.Halt | src/utils/chessAnalysis.ts:30-58 | The walk reaches the first capture move whose origin lookup fails, or the end of the list. No move before that index fails. |
| ChessAnalysis.AnalyzeFromPgn | src/utils/chessAnalysis.ts:68-78 | A failed PGN load gives `{0, 0, []}`. A successful load gives exactly the analyzer's result for the loaded position. |
| ChessAnalysis.AnalyzeFromFen | src/utils/chessAnalysis.ts:80-90 | A failed FEN load gives `{0, 0, []}`. A successful load gives exactly the analyzer's result for the loaded position. |
| ChessAnalysisProofs.ColorCountsPartition | src/utils/chessAnalysis.ts:44-50 | Each entry is counted for exactly one colour. The white and black counts add up to the number of entries. |
| ChessAnalysisProofs.AnalyzeCountsAgree | src/utils/chessAnalysis.ts:44-50 | For every position, including one where a failing lookup stopped the walk, `whiteCaptures + blackCaptures == |captureMoves|`. Each counter counts the entries of its colour. |
| ChessAnalysisProofs.FilterFromKeptIndices | src/utils/chessAnalysis.ts:30-44 | Entry k of the walk over a move list is built from the qualifying move at index `KeptIndices[k]`. There are no more entries than moves. |
| ChessAnalysisProofs.KeptIndicesIncreasing | src/utils/chessAnalysis.ts:30-44 | The indices of the kept moves are strictly increasing. Order is preserved and no move yields two entries. |
| ChessAnalysisProofs.KeptIndicesExact | src/utils/chessAnalysis.ts:32-35 | A move's index is kept exactly when the move is a capture and its origin holds a piece. |
| ChessAnalysisProofs.AnalyzeKeepsOrder | src/utils/chessAnalysis.ts:30-44 | `captureMoves` has one origin move per entry. The origins strictly increase and all come before the first failing lookup. |
| ChessAnalysisProofs.AnalyzeMembership | src/utils/chessAnalysis.ts:32-35 | Move i yields an entry exactly when it comes before the first failing lookup, it has a captured piece or 'x' in its SAN, and its origin square holds a piece. |
| ChessAnalysisProofs.AnalyzeMembershipWithoutFault | src/utils/chessAnalysis.ts:32-35 | When no lookup fails, move i yields an entry exactly when it is a capture whose origin holds a piece. |
| ChessAnalysisProofs.AnalyzeEntryFields | src/utils/chessAnalysis.ts:36-42 | Each entry copies `from` and `to` from its move. Its `color` and `piece` come from the piece on the origin square. `captured` is the move's captured type, or "piece" when the move names none. |
| ChessAnalysisProofs.AnalyzeStopsAtFault | src/utils/chessAnalysis.ts:30-58 | When a lookup fails, the result equals the result for the moves before the failing one. |
| ChessAnalysisProofs.AnalyzeIgnoresRest | src/utils/chessAnalysis.ts:30-58 | Moves after the failing one do not change the result, whatever they are. |

## Left out

- The rules engine: move generation, legality, SAN production and PGN/FEN
  parsing belong to chess.js. They are abstract inputs here: the move list,
  the board lookup and the load outcome.
- The position is a value passed to the analyzer. That it is only read and
  never changed therefore holds by construction; no separate statement is
  needed.
- `game.fen()` and `game.turn()` are only read for logging. The
  `console.log` / `console.error` calls are left out too.
- The `new Chess()` construction in the adapters is folded into the loader
  parameter.
- Check detection and check counting are not modelled. The analyzer does not
  compute them, and its result type has no check field.
- The viewer's UI is not part of this model: `src/App.tsx`,
  `src/components/ChessBoard.tsx` (including its "start" sentinel and its
  reset on load errors) and `src/components/DebugInfo.tsx`.
- Determinism and idempotence hold because `Analyze` is a function of its
  input; no separate lemma is needed.
