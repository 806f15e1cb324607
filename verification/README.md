# solveblack core in Dafny

This project models the threat-space solver at the heart of *solveblack*, a
Gomoku/renju solver for a 15 x 15 board. Its source lives under
`docs/translated/`. The model covers these parts:

- **Patterns** (`pattern.js`): the shape templates (five, open four, four,
  open three, …, one) and the catalog `Pattern.SOLVER_PATTERNS`. Each
  template is compiled into a two-bits-per-cell mask, the stone values of
  each colour, and four lists of cell offsets.
- **Lines** (`line.js`): one board line as a base-4 `stroke` and its mirror
  `inverse`. Putting and removing a stone, the line geometry (`lineNumber`,
  `lineOffset`, `posSquare`, …) and `findFigures`, which matches the catalog
  against a line.
- **Figures** (`figure.js`): a pattern matched at an offset of a line for one
  colour. It provides the squares of its stones, its strengthening, closing
  and breaking moves, and the figure comparator.
- **Layouts** (`layout.js`): an immutable position. It holds the sorted line
  list, the side to move, the figures sorted for that side, the weakest type
  searched and the stone count. The model covers:
  - `makeMove`, `backMove`, `swapHand`, `alignType` and the move-list
    constructor;
  - the queries `getStone`, `top`, `rate`, `gains`, `downs` and `availables`;
  - the symmetry machinery `transSquare`, `transMultiple`, `checkLines`,
    `transCode` and `equals`.
- **Vertices** (`vertex.js`): the search tree. A vertex is a `class` whose
  `state`, `rating` and `edges` change in place. The model covers `prepare`,
  `moves`, `makeEdge`, `expand`, `estimate`, `check`, the comparator and the
  static `Vertex.estimate`.
- **Board helpers** (`board.js`): `squareToCoord`, `coordToSquare`,
  `squareTransCode`, `Board.count`, `fillCount` and `vertexToSolution`.

Strokes are unbounded naturals read through base-4 digits (`Base4.Cell`). A
stone of colour `hand` (0 white, 1 black) is the cell value `hand + 1`. A
position is tied to the board it shows by `Layouts.Shows(L, m)`, where `m`
maps squares to colours. A `throw` becomes the `Failure` of a `Result`.

## Model

| member | source | states |
|---|---|---|
| Patterns.NewPattern | docs/translated/pattern.js:7-87 | The constructor builds exactly `PatternOf(type, template, rating)`. |
| Patterns.PackStones | docs/translated/pattern.js:21-35 | The first loop packs a 01 cell under every `x`, so `s` is the template's stone value `XBits(template)`. |
| Patterns.SortOffsets | docs/translated/pattern.js:44-71 | The switch loop yields the index lists of the `x`, `-`/`+`, `+`/`!` and non-`x` cells. |
| Patterns.XBitsCells | docs/translated/pattern.js:21-38 | Cell i of the white value is 1 exactly under an `x`, otherwise 0, and the value lies below 4^length. |
| Patterns.PatternValues | docs/translated/pattern.js:24-41 | `mask` has 11 in every template cell; `white` holds 01 and `black` 10 under each `x`; both lie under the mask. |
| Patterns.DoubleCells | docs/translated/pattern.js:41 | Doubling a value with 0/1 cells doubles every cell, which is how `black = white << 1` moves each stone to the black bit. |
| Patterns.FullMaskCells | docs/translated/pattern.js:27 | `(1 << (length << 1)) - 1` has cell value 3 below `length` and 0 above. |
| Patterns.WhereMembers | docs/translated/pattern.js:48-71 | The offset lists hold exactly the matching indices, strictly increasing. |
| Patterns.WhereBelow | docs/translated/pattern.js:48-71 | Every listed offset lies inside the template. |
| Patterns.PatternOffsets | docs/translated/pattern.js:44-86 | Membership in `moves`, `gains`, `downs` and `rifts`, as an iff on the template character. `moves` ascends and `move` is its first element, or none. `moves` and `rifts` partition the cells, and gains and downs lie in rifts. |
| Patterns.CompileGroup | docs/translated/pattern.js:113-184 | A compiled group has one pattern per template, each `PatternOf` that template. |
| Patterns.CompileCatalog | docs/translated/pattern.js:113-184 | The compiled catalog keeps the group structure. |
| PatternCatalog.WhereCount | docs/translated/pattern.js:74-77 | The length of `moves` is the number of `x` in the template. |
| PatternCatalog.CatalogTiers | docs/translated/pattern.js:97-184 | There are five groups of sizes 1, 6, 15, 20 and 10, each a run of its strong type followed by its weak type (FIVE; OPEN_FOUR/FOUR; OPEN_THREE/THREE; OPEN_TWO/TWO; ONE). |
| PatternCatalog.CatalogOrdered | docs/translated/pattern.js:113-184 | Types never decrease along the catalog, within and across groups. |
| PatternCatalog.FiveCounts | docs/translated/pattern.js:116 | The five template has 5 stones. |
| PatternCatalog.FourCounts | docs/translated/pattern.js:120-126 | Each four template has 4 stones. |
| PatternCatalog.ThreeCountsA | docs/translated/pattern.js:130-138 | Each of these three templates has 3 stones. |
| PatternCatalog.ThreeCountsB | docs/translated/pattern.js:139-145 | Each of these three templates has 3 stones. |
| PatternCatalog.TwoCountsA | docs/translated/pattern.js:149-155 | Each of these two templates has 2 stones. |
| PatternCatalog.TwoCountsB | docs/translated/pattern.js:156-163 | Each of these two templates has 2 stones. |
| PatternCatalog.TwoCountsC | docs/translated/pattern.js:164-169 | Each of these two templates has 2 stones. |
| PatternCatalog.OneCountsA | docs/translated/pattern.js:173-177 | Each of these one templates has 1 stone. |
| PatternCatalog.OneCountsB | docs/translated/pattern.js:178-182 | Each of these one templates has 1 stone. |
| PatternCatalog.CatalogWellFormed | docs/translated/pattern.js:113-184 | Every template fits a line (1 to 12 cells) and has as many stones as its type says. |
| PatternCatalog.CatalogPatterns | docs/translated/pattern.js:113-184 | Every compiled pattern keeps its type, spans 1 to 12 cells, has its type's number of stones and has a first stone `move`. |
| Base4.CellOfShift | docs/translated/line.js:194-264 | Dropping k cells (`probe >>= 2`) moves cell k + j to cell j. |
| Base4.WithCellCell | docs/translated/line.js:55 | Writing cell i changes cell i only. |
| Base4.CellsDetermine | docs/translated/line.js:9-23 | Two strokes below 4^n with equal cells are equal, so a line is fixed by its cells. |
| Base4.MirrorWithCell | docs/translated/line.js:55-58 | Writing the same value at cell i of the stroke and at cell `len - 1 - i` of the inverse keeps them mirrored. |
| Base4.WithCellTwice | docs/translated/line.js:49-95 | A second write of a cell overrides the first. |
| Base4.WithCellSame | docs/translated/line.js:89 | Writing back a cell's own value changes nothing. |
| Base4.ShiftStep | docs/translated/line.js:199-263 | Each step of the `probe` walk reads cell `move` as `probe & 3` and leaves `probe / 4`. |
| Base4.ShiftZero | docs/translated/line.js:199 | Once `probe` is 0, no stone is left at or above `move`. |
| Base4.CountWithCell | docs/translated/line.js:49-95 | Rewriting one cell changes a colour's count by exactly the cells gained or lost. |
| Sorting.Insert | docs/translated/layout.js:39-46 | One insertion step keeps the elements and adds one. |
| Sorting.InsertSorted | docs/translated/layout.js:39-46 | Inserting into a sorted list keeps it sorted under a total preorder. |
| Sorting.SortPermutes | docs/translated/layout.js:39-46 | `sort` with a comparator is a permutation. |
| Sorting.SortSorted | docs/translated/layout.js:39-46 | Under a total-preorder comparator the result is sorted. |
| Sorting.SortMembersAll | docs/translated/layout.js:39-46 | Sorting keeps exactly the members. |
| LineGeometry.LineNumber | docs/translated/line.js:98-115 | For the four directions, the number names a real board line in that direction. |
| LineGeometry.LineLength | docs/translated/line.js:123-134 | The length of a board line is between 1 and 15. |
| LineGeometry.LineOffset | docs/translated/line.js:137-156 | A square's offset lies within its line's length. |
| LineGeometry.PosSquare | docs/translated/line.js:159-182 | Every offset of a board line leads to a board square. |
| LineGeometry.SquareOnLines | docs/translated/line.js:98-182 | `posSquare(lineNumber(d, sq), lineOffset(d, sq)) == sq`, and `onSameLine` holds for it. |
| LineGeometry.PosSquareOnLine | docs/translated/line.js:118-182 | `posSquare` lands on the line at the same offset (`lineOffset` inverts it). |
| LineGeometry.OnSameLineIff | docs/translated/line.js:118-120 | `onSameLine(number, sq)` holds exactly when some offset of the line leads to sq. |
| LineGeometry.SameSquare | docs/translated/line.js:102-105 | A square is fixed by its row and column. |
| Lines.NewLine | docs/translated/line.js:25-45 | The single-stone constructor keeps the line number. |
| Lines.NewLineSpec | docs/translated/line.js:25-45 | The single-stone line is valid and holds exactly the stone `hand + 1` at the offset. |
| Lines.NewLineCells | docs/translated/line.js:41-44 | Its stroke and inverse hold the stone at the offset and at the mirrored offset. |
| Lines.GetStone | docs/translated/line.js:71-80 | getStone answers 0, 1 or -1. |
| Lines.GetStoneCell | docs/translated/line.js:71-80 | On a cell that is not doubly set, -1 means empty, and otherwise the answer is the colour whose bits the cell holds. |
| Lines.PutStone | docs/translated/line.js:49-62 | A successful putStone keeps the line number. |
| Lines.PutStoneSpec | docs/translated/line.js:49-62 | It throws exactly on an occupied cell. Otherwise the cell holds `hand`, no other cell changes, the colour's count rises by one and the inverse stays mirrored. |
| Lines.PutStoneValid | docs/translated/line.js:49-62 | putStone on an empty cell of a valid line gives a valid line. |
| Lines.RemoveStone | docs/translated/line.js:83-95 | A successful removeStone keeps the line number. |
| Lines.RemoveStoneSpec | docs/translated/line.js:83-95 | It throws exactly when the cell does not hold `hand`. Otherwise the cell empties, the rest is unchanged and the count drops by one. |
| Lines.RemoveStoneValid | docs/translated/line.js:83-95 | Removing a stone of `hand` keeps a valid line valid. |
| Lines.PutRemove | docs/translated/line.js:49-95 | removeStone undoes putStone exactly. |
| Lines.RemovePut | docs/translated/line.js:49-95 | putStone undoes removeStone exactly. |
| Lines.LineOrder | docs/translated/line.js:279-289 | "No later than" under `Line.Comparator` is a total preorder. |
| Lines.ComparatorOrder | docs/translated/line.js:267-289 | The comparator (and `compareTo`) is antisymmetric and answers 0 exactly for equal number and stroke (what `equals` tests); its order is a total preorder. |
| Lines.MatchGroup | docs/translated/line.js:203-227 | `patterns.some(...)` appends the figure of the first accepted pattern of the group, or nothing. |
| Lines.MatchGroups | docs/translated/line.js:203-227 | The `forEach` over the groups appends one figure at most per group, in group order. |
| Lines.ScanFigures | docs/translated/line.js:185-265 | The whole scan appends exactly `Scan` from cell 0, with the black figures of each stone first, then its white ones. |
| Lines.ScanUnfold | docs/translated/line.js:199-263 | One step of the scan from a cell with stones above it. |
| Lines.FindFigures | docs/translated/line.js:185-265 | `findFigures` over the solver's catalog appends `LineFigures(l, type)`. |
| Lines.FirstAcceptedIff | docs/translated/line.js:204-226 | `some` finds nothing exactly when no pattern is accepted, and otherwise the first accepted one. |
| Lines.FirstAcceptedSound | docs/translated/line.js:204-226 | The figure `some` picks from a group is sound. |
| Lines.AcceptedSound | docs/translated/line.js:208-224 | An accepted pattern gives a sound figure. |
| Lines.GroupFiguresSound | docs/translated/line.js:203-258 | A pass over the groups gives at most one figure per group, each sound. |
| Lines.ScanSound | docs/translated/line.js:199-264 | Every scanned figure is sound. |
| Lines.LineFiguresSound | docs/translated/line.js:185-265 | A sound figure lies on the line and uses a catalog pattern no weaker than asked. Its window fits, shows exactly the pattern's stones of its colour, and has no stone of that colour next to it on either side. |
| Lines.LineFiguresPlaced | docs/translated/line.js:185-265 | On a board line every reported figure is placed (window and offsets on the line), has a first stone and has its type's number of stones. |
| Lines.FigurePlaced | docs/translated/line.js:213-223 | The same, for a single sound figure. |
| Figures.PlacedFits | docs/translated/figure.js:33-88 | For a placed figure, all four offset lists lead to squares of its line. |
| Figures.PatternPlaced | docs/translated/figure.js:8-20 | A figure of a compiled template whose window fits the line is placed. |
| Figures.Squares | docs/translated/figure.js:33-58 | The squares `posSquare(number, offset + c)` are board squares on the figure's line. |
| Figures.SquaresAt | docs/translated/figure.js:36 | Square i is `posSquare(number, offset + cols[i])`. |
| Figures.AddNewSpec | docs/translated/figure.js:33-39 | The push-if-absent loop only appends, holds exactly the old elements and the new squares, and keeps a duplicate-free list so. |
| Figures.AddMoves | docs/translated/figure.js:33-88 | `addMoves(r, cols)` (and `addGains`/`addDowns`/`addRifts`) returns r with the absent squares of cols appended; `cols` defaults to the pattern's stones. |
| Figures.Moves | docs/translated/figure.js:42-47 | `moves(cols)` lists the squares of cols in order, each once, and nothing else; `cols` defaults to the pattern's stones. |
| Figures.Gains | docs/translated/figure.js:61-63 | `gains()` is exactly `moves(pattern.gains)`: the strengthening squares in offset order, each once. |
| Figures.Downs | docs/translated/figure.js:71-73 | `downs()` is exactly `moves(pattern.downs)`: the closing squares in offset order, each once. |
| Figures.Rifts | docs/translated/figure.js:81-83 | `rifts()` is exactly `moves(pattern.rifts)`: the breaking squares in offset order, each once. |
| Figures.ContainsIff | docs/translated/figure.js:50-58 | `contains(square, cols)` holds exactly when `moves(cols)` lists the square, with the same default for `cols`. |
| Figures.SquaresOnFigureLine | docs/translated/figure.js:91-93 | Every square a figure names satisfies its `onSameLine`. |
| Figures.Compare | docs/translated/figure.js:23-30 | The comparator's sign is the order of the keys: own figures by type, the opponent's two types weaker. |
| Figures.Before | docs/translated/figure.js:23-30 | "No later than" under `Figure.Comparator(hand)` is a total preorder. |
| Figures.OrderedByKey | docs/translated/figure.js:23-30 | The comparator is antisymmetric and transitive. |
| Layouts.Opposite | docs/translated/layout.js:133 | The next side is the other colour. |
| Layouts.OppositeTwice | docs/translated/layout.js:70-109 | Passing twice gives the side back. |
| Layouts.Empty | docs/translated/layout.js:55-62 | The empty position has black to move, no lines, no figures and count 0; a type of 0 gives ONE. |
| Layouts.EmptyShows | docs/translated/layout.js:55-62 | The empty position shows the empty board. |
| Layouts.KeptSpec | docs/translated/layout.js:74-78 | The kept figures are exactly the old ones not on a line through the square. |
| Layouts.KeepFigures | docs/translated/layout.js:74-78 | The copying loop keeps exactly those, in order. |
| Layouts.RescanLines | docs/translated/layout.js:81-85 | The rescan appends the figures found on the lines through the square. |
| Layouts.FiguresOnSpec | docs/translated/layout.js:81-85 | Every rescanned figure comes from a line through the square and lies on such a line. |
| Layouts.LinesFiguresSpec | docs/translated/layout.js:43-45 | The figures of all lines are the figures found on some line of the list. |
| Layouts.Refigure | docs/translated/layout.js:72-86 | The figure bookkeeping of a move is `Refigured`: kept figures, rescanned figures, then sorted for the next side. |
| Layouts.RefiguredSpec | docs/translated/layout.js:72-86 | The new list is sorted for the next side and keeps every old figure off the square's lines. Every figure in it that is new, or that sits on a line through the square, lies on such a line. |
| Layouts.RefiguredLines | docs/translated/layout.js:70-109 | If the lines change only through the square, the rebuilt figures are still exactly those of the lines. |
| Layouts.AddStone | docs/translated/layout.js:300-305 | `addStone` puts the mover's stone on a copy of the lines and sorts them. |
| Layouts.MakeMove | docs/translated/layout.js:70-88 | `makeMove` is `Moved`: new lines, the other side to move, rebuilt figures, count + 1, and a failure where putStone throws. |
| Layouts.MovedFrom | docs/translated/layout.js:70-88 | Once the stone is added, the new position is exactly those parts. |
| Layouts.BackMove | docs/translated/layout.js:91-109 | `backMove` is `BackMoved`: the last mover's stone taken off, figures rebuilt, count - 1. |
| Layouts.MovedShows | docs/translated/layout.js:70-88 | On a position showing m, makeMove fails exactly when the square is taken. Otherwise the result shows m plus the mover's stone, with the other side to move. |
| Layouts.MovedFreeShows | docs/translated/layout.js:70-88 | The free-square case of that. |
| Layouts.AddedOnFree | docs/translated/layout.js:300-305 | On a free square the sorted new lines show m plus the stone, in increasing order, and only lines through the square changed. |
| Layouts.BackMovedShows | docs/translated/layout.js:91-109 | backMove of the opponent's last stone succeeds and shows m without it. |
| Layouts.MoveThenBack | docs/translated/layout.js:70-109 | backMove undoes makeMove. The lines, side, type and count come back, and the figures are the same set. |
| Layouts.PutThenTake | docs/translated/layout.js:70-109 | Adding a stone to a free square and removing it gives the board back. |
| Layouts.SameBoard | docs/translated/layout.js:9-63 | Two positions of one type showing one board have the same lines, count and figures. |
| Layouts.SolverGroupsOrdered | docs/translated/pattern.js:113-184 | Within each catalog group the types never decrease. |
| Layouts.FirstAcceptedNarrow | docs/translated/line.js:204-226 | In a type-ordered group, asking for a smaller type finds the same pattern if that one is small enough, and none otherwise. |
| Layouts.ScanNarrow | docs/translated/line.js:185-265 | Scanning for a smaller type gives exactly the larger scan filtered by type, in order. |
| Layouts.FoundNarrow | docs/translated/line.js:185-265 | The same, for a whole line. |
| Layouts.FilterType | docs/translated/layout.js:134-139 | The filter loop keeps exactly the figures of type at most `type`, in order. |
| Layouts.AtMostSpec | docs/translated/layout.js:135-139 | A figure is kept exactly when it was there and its type is at most `type`. |
| Layouts.ScanLines | docs/translated/layout.js:158-161 | The loop over all lines appends every line's figures, line by line. |
| Layouts.FindAllFigures | docs/translated/layout.js:157-162 | Scanning all lines and sorting gives `AllFigures`. |
| Layouts.SortedFigures | docs/translated/layout.js:140-162 | Sorting the figures sorts them and keeps exactly the members. |
| Layouts.SwapHand | docs/translated/layout.js:132-142 | `swapHand(type)` is `Swapped`. |
| Layouts.SwappedSpec | docs/translated/layout.js:132-142 | It keeps the lines and count, passes the move, and keeps exactly the figures of type at most `type`, sorted for the new side. For a type other than FIVE no larger than the position's, the board shown is the same. |
| Layouts.AlignType | docs/translated/layout.js:145-165 | `alignType(type)` is `Aligned`. |
| Layouts.AlignedSpec | docs/translated/layout.js:145-165 | It keeps the lines, side and count. For any type but FIVE the figures are still those of the lines, because filtering to a smaller type finds what a rescan would. |
| Layouts.FilteredLines | docs/translated/layout.js:148-156 | The figures of the lines filtered to a smaller type are the figures of the lines for that type. |
| Layouts.HandAt | docs/translated/layout.js:33-37 | Move k is black exactly when k is even. |
| Layouts.PutMovesStep | docs/translated/layout.js:35-38 | One pass of the constructor's `forEach` puts the move's stone, alternating the colour. |
| Layouts.FromMoves | docs/translated/layout.js:27-53 | The move-list constructor builds `Built(moves, type)`. |
| Layouts.PutMovesBoard | docs/translated/layout.js:35-38 | Playing moves on lines showing m fails exactly when a square repeats or is taken. Otherwise the lines show the moves played on m. |
| Layouts.PlayedSquares | docs/translated/layout.js:35-38 | The played board holds exactly the old squares and the moves. |
| Layouts.PlayedSize | docs/translated/layout.js:32 | Distinct free moves add one stone each, so `count` is the number of stones. |
| Layouts.PlayedColours | docs/translated/layout.js:33-37 | Move k gets `h` when k is even and the other colour when odd. |
| Layouts.GameBoard | docs/translated/layout.js:33-38 | Distinct moves from black take exactly the squares played, black on even moves. |
| Layouts.ScannedShows | docs/translated/layout.js:39-47 | Sorted lines showing m, scanned and sorted for the side to move, give a position showing m. |
| Layouts.BuiltFails | docs/translated/layout.js:27-53 | The constructor throws exactly when a square repeats. |
| Layouts.BuiltShows | docs/translated/layout.js:27-53 | On distinct squares it shows the game's board, counts the moves, and has black to move after an even number of moves. |
| Layouts.BuiltMovesShows | docs/translated/layout.js:31-47 | The same, for at least one move. |
| LayoutLines.FindFrom | docs/translated/layout.js:345-353 | The search loop finds the first line with the number at or after i, or none. |
| LayoutLines.FindUnique | docs/translated/layout.js:345-353 | With unique numbers the search finds the one line of that number. |
| LayoutLines.PutStone | docs/translated/layout.js:339-359 | `Layout.putStone` returns `WithStone`: each direction puts the stone on its line or appends a new line, and a failure where putStone throws. |
| LayoutLines.PutDirectionStep | docs/translated/layout.js:341-357 | One direction pass writes the stone on the square's line in that direction and changes nothing else. |
| LayoutLines.PutStoneBoard | docs/translated/layout.js:339-359 | On lines showing m it throws exactly when the square is taken. Otherwise the lines show m plus the stone, and only lines through the square change or appear. |
| LayoutLines.PutStoneOccupied | docs/translated/layout.js:349 | On a taken square it throws. |
| LayoutLines.PutStoneFree | docs/translated/layout.js:339-359 | On a free square it succeeds with lines showing the new board. |
| LayoutLines.PermutationRepresents | docs/translated/layout.js:303 | The board shown does not depend on the order of the lines. |
| LayoutLines.SortedIncreasing | docs/translated/layout.js:303 | Lines sorted by `Line.Comparator` with unique numbers have increasing numbers. |
| LayoutLines.SortLinesRepresents | docs/translated/layout.js:300-305 | Sorting lines showing m keeps the board and orders the numbers. |
| LayoutLines.AddLine | docs/translated/layout.js:280-297 | `addLine` returns `Inserted(lines, line)`. |
| LayoutLines.InsertedElements | docs/translated/layout.js:280-297 | It adds exactly the one line. |
| LayoutLines.InsertedIncreasing | docs/translated/layout.js:280-297 | A line with a new number goes where the numbers keep increasing. |
| LayoutLines.InsertedSorted | docs/translated/layout.js:271-297 | On increasing lines, `addLine` agrees with `addLine_` (append, then sort). |
| LayoutLines.RemoveStone | docs/translated/layout.js:308-336 | `removeStone` returns `WithoutStone`: the stone off every line through the square, then the empty lines dropped. |
| LayoutLines.RemoveFromSpec | docs/translated/layout.js:310-328 | The direction passes succeed on a square holding `hand`. They keep the numbers and leave every line off the square unchanged. |
| LayoutLines.KeepNonEmpty | docs/translated/layout.js:329-335 | The filter keeps the lines with a non-zero stroke, in order. |
| LayoutLines.NonEmptySpec | docs/translated/layout.js:329-335 | It keeps exactly those lines and preserves increasing order and unique numbers. |
| LayoutLines.CellOfNonEmpty | docs/translated/layout.js:329-335 | Dropping empty lines changes no square. |
| LayoutLines.RemoveStoneBoard | docs/translated/layout.js:308-336 | On lines showing m, for a stone on the square it throws exactly when the stone is not `hand`'s. Otherwise the lines show m without it, in order. For an empty square it throws exactly when a line passes through it, and otherwise changes nothing. |
| LayoutLines.RemovePresent | docs/translated/layout.js:308-336 | Removing the last mover's stone succeeds and gives increasing lines showing m without it. |
| LayoutLines.RepresentsUnique | docs/translated/layout.js:300-336 | Increasing line lists showing the same board are equal, so a position's line list is canonical. |
| LayoutLines.IncreasingSameElements | docs/translated/layout.js:303 | Two increasing lists with the same elements are the same list. |
| LayoutLines.StoneFrom | docs/translated/layout.js:112-129 | The row-line search answers 0, 1 or -1. |
| LayoutLines.StoneFromBoard | docs/translated/layout.js:112-129 | On increasing lines showing m, it answers the square's colour, or -1 when the square is empty. |
| LayoutLines.FullRowSpec | docs/translated/layout.js:237-265 | A pushed whole row lists each of its squares, ascending. |
| LayoutLines.EmptyCellsSpec | docs/translated/layout.js:244-254 | The probe loop lists exactly the row's squares whose cell is empty, ascending. |
| LayoutLines.WalkSpec | docs/translated/layout.js:231-266 | From any row where it is in step with the lines, the walk lists the board's empty squares from that row on. |
| LayoutLines.WalkBoard | docs/translated/layout.js:231-266 | On increasing lines showing m, the walk lists exactly the empty board squares, each once, ascending. |
| LayoutQueries.GetStone | docs/translated/layout.js:112-129 | `getStone` is the row-line search `StoneFrom`. |
| LayoutQueries.GetStoneShows | docs/translated/layout.js:112-129 | On a position showing m, it answers the square's colour, or -1. |
| LayoutQueries.GetStoneAfterMoves | docs/translated/layout.js:70-129 | After makeMove the square holds the mover's colour; after backMove it is empty. |
| LayoutQueries.Top | docs/translated/layout.js:168-174 | `top()` is null exactly without figures, and otherwise one of them. |
| LayoutQueries.TopRanksFirst | docs/translated/layout.js:168-174 | With the figures sorted for the mover, no figure has a smaller key than the top. |
| LayoutQueries.Rate | docs/translated/layout.js:177-188 | `rate()` is the mover's ratings minus the opponent's. |
| LayoutQueries.RatingSort | docs/translated/layout.js:177-188 | The rating does not depend on the figures' order. |
| LayoutQueries.RatingSwap | docs/translated/layout.js:177-188 | With two colours, one side's rating is minus the other's. |
| LayoutQueries.SwapNegatesRating | docs/translated/layout.js:132-188 | `swapHand(ONE)` negates the rating. |
| LayoutQueries.PushNew | docs/translated/layout.js:191-214 | The push-if-absent loop appends the absent squares. |
| LayoutQueries.Gains | docs/translated/layout.js:191-201 | `gains(type)` is the list `GainsOf` builds: figure by figure in list order, the squares of each qualifying figure's `gains()` not yet listed. It lists each strengthening square of the mover's figures of type at most `type` once, and nothing else. |
| LayoutQueries.GainsOfMembers | docs/translated/layout.js:191-201 | The `gains(type)` list has no duplicates and holds exactly the strengthening squares of the mover's figures of type at most `type`. |
| LayoutQueries.Downs | docs/translated/layout.js:204-214 | `downs(type)` is the list `DownsOf` builds, in figure order as for `gains`. It lists each closing square of the opponent's figures of type at most `type` once, and nothing else. |
| LayoutQueries.DownsOfMembers | docs/translated/layout.js:204-214 | The `downs(type)` list has no duplicates and holds exactly the closing squares of the opponent's figures of type at most `type`. |
| LayoutQueries.SectorRowSpec | docs/translated/layout.js:226-228 | A sector row holds the row's columns from c to 14 - row, ascending. |
| LayoutQueries.SectorSpec | docs/translated/layout.js:222-230 | The sector is rows 0-6, columns 7 to 14 - row, ascending: 35 squares from row 0. |
| LayoutQueries.AvailablesShows | docs/translated/layout.js:217-268 | For a position showing m, `availables` gives the centre on an empty board and the 35 sector squares after one stone. Otherwise it gives exactly the free squares, always ascending. |
| LayoutQueries.SecondMoveSquares | docs/translated/layout.js:222-230 | After one stone, one eighth of the board: 35 squares, ascending. |
| LayoutQueries.Availables | docs/translated/layout.js:217-268 | The method is `AvailableSquares`. |
| LayoutQueries.SectorSquares | docs/translated/layout.js:224-230 | The outer sector loop pushes the whole sector. |
| LayoutQueries.PushSectorRow | docs/translated/layout.js:226-228 | The inner loop pushes one sector row. |
| LayoutQueries.PushRow | docs/translated/layout.js:238-263 | The row loop pushes a whole row. |
| LayoutQueries.PushEmpty | docs/translated/layout.js:244-254 | The probe loop pushes the row's empty cells. |
| LayoutQueries.FreeSquares | docs/translated/layout.js:232-265 | The row walk pushes `Walk` from the first line. |
| Symmetry.TransSquare | docs/translated/layout.js:464-491 | `transSquare` maps board squares to board squares. |
| Symmetry.TransSquareInvolution | docs/translated/layout.js:464-491 | Codes other than 3 and 7 undo themselves. |
| Symmetry.TransSquareBack | docs/translated/layout.js:470-487 | For codes 3 and 7, `back` undoes the forward map and the other way round. |
| Symmetry.QuarterTurns | docs/translated/layout.js:470-487 | Code 3 backwards is code 7 forwards, and the reverse. |
| Symmetry.TransSquareInjective | docs/translated/layout.js:464-491 | Every symmetry is one to one on the board. |
| Symmetry.TransMultiple | docs/translated/layout.js:540-569 | The composed code is a code, and a mirror exactly when one of the two is. |
| Symmetry.TransMultipleIdentity | docs/translated/layout.js:540-569 | Code 0 is neutral on both sides. |
| Symmetry.TransSquareMoved | docs/translated/layout.js:464-491 | transSquare moves (row, col) as `Moved` says. |
| Symmetry.MovedComposes | docs/translated/layout.js:540-569 | On coordinates, code1 then code2 is `transMultiple(code1, code2)`. |
| Symmetry.MovedComposesBack | docs/translated/layout.js:540-569 | Backwards, code2 then code1 is the composed code applied backwards. |
| Symmetry.TransMultipleComposes | docs/translated/layout.js:464-569 | `transSquare(transSquare(sq, c1), c2) == transSquare(sq, transMultiple(c1, c2))`, and the same backwards in reverse order. |
| Transposition.LinesCode | docs/translated/layout.js:408-461 | checkLines answers -1, 0, 2, 4 or 6. It answers 0 exactly when every line agrees straight with the same stroke, and -1 exactly when none of the four comparisons holds. |
| Transposition.AgreeStep | docs/translated/layout.js:432-459 | One more line keeps a comparison exactly when it agrees too. |
| Transposition.NoneAgree | docs/translated/layout.js:460 | Once every flag is cleared, checkLines answers -1. |
| Transposition.Cleared | docs/translated/layout.js:435-455 | The `r & ~...` steps clear exactly the flags the line breaks. |
| Transposition.FirstFlags | docs/translated/layout.js:409-428 | The first line sets exactly the flags of the comparisons it satisfies. |
| Transposition.CheckLines | docs/translated/layout.js:408-461 | The method answers `LinesCode`. |
| Transposition.FlagsCode | docs/translated/layout.js:460 | The code is picked from the surviving flags in the order 1, 2, 4, 8. |
| Transposition.Leading | docs/translated/layout.js:507-530 | The counting loops stop at the first line at or above the bound. |
| Transposition.CountLeading | docs/translated/layout.js:507-530 | The loop computes `Leading`. |
| Transposition.TransCodeOf | docs/translated/layout.js:494-538 | transCode answers -1 to 7. It answers -1 for null or a different number of lines. `TransCodeMeaning` states what a code of 0 or more means for the boards. |
| Transposition.TransCode | docs/translated/layout.js:494-538 | The method answers `TransCodeOf`. |
| Transposition.TransCodeSelf | docs/translated/layout.js:494-538 | A position has code 0 to itself. |
| Transposition.FramedLines | docs/translated/layout.js:507-518 | The lines of a non-empty board open with a row and close with a diagonal, so the counting loops stay in the list. |
| Transposition.RowsBlock | docs/translated/layout.js:507-518 | The row lines are the leading block of line numbers below 32. |
| Transposition.ColumnsBlock | docs/translated/layout.js:519-530 | The column lines are the block that follows the row lines, numbers 32 to 63. |
| Transposition.StoneOfLines | docs/translated/layout.js:494-538 | A board that has lines has a stone. |
| Transposition.CodeComparison | docs/translated/layout.js:494-538 | A code of 0 or more comes from one `checkLines` comparison: the first position's row block against the second's row block (codes 0, 2, 4, 6) or column block (codes 1, 3, 5, 7), with the flags that survived. |
| Transposition.CodeMoves | docs/translated/layout.js:464-491 | The symmetry of that code takes a square's row to the compared row line (reversed or not), and its column to the offset on that line (mirrored or not). |
| Transposition.BlockSearch | docs/translated/layout.js:432-460 | When two blocks agree line by line, a row line is present in one exactly when its partner line is in the other, and their strokes agree straight or mirrored. |
| Transposition.BlockFound | docs/translated/layout.js:432-460 | A present row line's partner is present, with the stroke that comparison demands. |
| Transposition.BlockAbsent | docs/translated/layout.js:432-460 | An absent row line's partner is absent. |
| Transposition.StraightMirror | docs/translated/line.js:41-58 | A row or column line's `inverse` stroke reads cell c where the stroke reads cell 14 - c. |
| Transposition.PairedCells | docs/translated/layout.js:432-460 | Partner lines found together, with agreeing strokes, give the same cell at a square and its image. |
| Transposition.ComparisonCells | docs/translated/layout.js:494-538 | Under an agreeing comparison, every board square's cell in the first position equals its image's cell in the second. |
| Transposition.ComparisonMeaning | docs/translated/layout.js:494-538 | The same on the boards: the stone at a square is the stone at its image. |
| Transposition.TransCodeMeaning | docs/translated/layout.js:494-538 | For every code c of 0 or more, the second board holds at `transSquare(x, c)` exactly the stone (or emptiness) the first holds at x. |
| Transposition.TransCodeZero | docs/translated/layout.js:494-538 | Code 0 means the same board. |
| Transposition.SameOccupants | docs/translated/layout.js:494-538 | Two boards that agree on every square are the same board. |
| Transposition.Equal | docs/translated/layout.js:572-583 | `equals` holds exactly for the same position, or one with the same side to move and some transposition code. |
| Transposition.Equals | docs/translated/layout.js:572-583 | The method answers `Equal`, whose board meaning `EqualBoards` states. |
| Transposition.EqualBoards | docs/translated/layout.js:572-583 | Between positions showing boards, `equals` holds exactly for the same side to move and a code of 0 or more. The second board is then the first moved by that code's symmetry, and the same board for code 0. A position equals itself. |
| Vertices.CompareToOrder | docs/translated/vertex.js:296-308 | compareTo is negative exactly when v precedes w: losses, then unknowns, then wins, the nearer loss and slower win first, ties by lower rating. It is 0 exactly for equal standings. |
| Vertices.ComparatorAntisymmetric | docs/translated/vertex.js:310-315 | `Vertex.Comparator` is antisymmetric, null sorting last. |
| Vertices.EntryBefore | docs/translated/vertex.js:296-315 | The children's order is a total preorder equal to "not preceded". |
| Vertices.PrepareState | docs/translated/vertex.js:106-158 | prepare's state is one of -3, -1, 0, 1, 2, 4. It is unknown only with a top figure: the attacker's three or open two, or the opponent's four or open three. |
| Vertices.AliveMembers | docs/translated/vertex.js:282-286 | The defender's filter keeps exactly the expanded children and those of the top state. |
| Vertices.EdgesAtMembers | docs/translated/vertex.js:259-287 | The kept edges are exactly the edges of the kept entries. |
| Vertices.OutcomeDecides | docs/translated/vertex.js:248-291 | check drops the edges only when it decides the vertex. |
| Vertices.FirstIsBest | docs/translated/vertex.js:251-253 | After the sort, no child precedes the first. |
| Vertices.TieRunComplete | docs/translated/vertex.js:259-265 | The leading tied run holds every child of the top state. |
| Vertices.TieRun | docs/translated/vertex.js:259-265 | The tied run is a prefix of the sorted children, all of the first state, and stops at the first other state. |
| Vertices.AttackerWins | docs/translated/vertex.js:254-266 | With the attacker to move and a lost child, the vertex wins one move after the nearest loss and keeps exactly the edges of that state. |
| Vertices.AttackerFails | docs/translated/vertex.js:267-270 | With the attacker to move and every child won, the state is -1 and the edges are dropped. |
| Vertices.CheckWaits | docs/translated/vertex.js:248-291 | With no lost child and an unknown one, check only sorts. |
| Vertices.DefenderHolds | docs/translated/vertex.js:273-276 | With the defender to move and a lost child, the state is 1 and the edges are dropped. |
| Vertices.DefenderLoses | docs/translated/vertex.js:277-287 | With the defender to move and every child won, the vertex is lost one move after the slowest win, keeping expanded or top-state children. |
| Vertices.CheckIdle | docs/translated/vertex.js:249 | Without children, or at state -128, check changes nothing. |
| Vertices.KeepTied | docs/translated/vertex.js:259-266 | The first loop keeps the edges of the leading tied run. |
| Vertices.KeepAlive | docs/translated/vertex.js:281-287 | The second loop keeps the edges of the expanded or top-state children. |
| Vertices.BackUp | docs/translated/vertex.js:253-290 | The body of check is `Outcome`. |
| Vertices.OutcomeWithin | docs/translated/vertex.js:248-291 | The edges check keeps are among its edges. |
| Vertices.Lead | docs/translated/vertex.js:91-99 | The leading squares are those of the edges tied with the first, up to the first other state. |
| Vertices.LeadSquares | docs/translated/vertex.js:90-100 | The loop computes `Lead`. |
| Vertices.LeadIs | docs/translated/vertex.js:91-99 | A prefix of squares, all of one state and followed by another, is `Lead`. |
| Vertices.CandidatesOnBoard | docs/translated/vertex.js:166-186 | Every candidate move is a board square. |
| Vertices.CandidateEdges | docs/translated/vertex.js:187-203 | The edges built are all for candidates; with all edges, exactly the candidates. |
| Vertices.Reported | docs/translated/vertex.js:63-71 | The root state is kept or reset to 0. It is reset exactly for a loss with the attacker to move, a win with the defender to move, or a state beyond the target. |
| Vertices.Cut | docs/translated/vertex.js:192-196 | A state beyond the target becomes 0. |
| Vertices.Vertex.constructor | docs/translated/vertex.js:10-37 | A new vertex wraps the position and attacker, with state 0, rating 0 and no edges. |
| Vertices.Vertex.ValidTree | docs/translated/vertex.js:10-37 | A valid vertex heads a finite tree of board moves. |
| Vertices.Vertex.Prepare | docs/translated/vertex.js:106-161 | prepare sets the state to `PrepareState` of the top figure and the rating to `rate()`, and leaves the edges alone. |
| Vertices.Vertex.Moves | docs/translated/vertex.js:76-103 | Expanded: the squares of the edges tied with the first. Otherwise by state: exactly the lists `gains(FOUR)`, `gains(OPEN_THREE)` or `downs(OPEN_FOUR)`, in figure order, each square once; null otherwise. |
| Vertices.Vertex.MakeMove | docs/translated/vertex.js:208-211 | It fails exactly on a taken square. Otherwise the result is a fresh unknown vertex on the moved position, same attacker. |
| Vertices.Vertex.MakeEdge | docs/translated/vertex.js:214-218 | The edge of a move, its vertex prepared; it fails exactly on a taken square. |
| Vertices.Vertex.Candidates | docs/translated/vertex.js:166-186 | expand's moves fail exactly without a top figure. Otherwise they are exactly the list `LayoutQueries.CandidateMoves`: `downs(FOUR)` at a four; `gains(THREE)` followed by the `downs(OPEN_THREE)` squares not already listed at an open three; otherwise `gains(OPEN_TWO)`. |
| Vertices.CandidateMovesMembers | docs/translated/vertex.js:166-186 | The candidate list names each square once: exactly the defences to a four, or the attacks and defences at an open three, or the attacks. |
| Vertices.Vertex.Reset | docs/translated/vertex.js:194-195 | A child beyond the target becomes unknown and unexpanded. |
| Vertices.Vertex.CutEdge | docs/translated/vertex.js:190-196 | An edge whose child is prepared and cut at the target; it fails exactly on a taken square. |
| Vertices.Vertex.Grow | docs/translated/vertex.js:187-203 | One prepared, cut edge per move, in order. Without `alledges`, the loop ends at the first move whose child is lost, kept as the only edge; every child built before it has state 0 or more. |
| Vertices.Vertex.GrownSafe | docs/translated/vertex.js:187-203 | The children grown for the first i moves, none of them lost, have states of 0 or more. |
| Vertices.Vertex.Adopt | docs/translated/vertex.js:189-202 | One step of that loop. |
| Vertices.Vertex.Expand | docs/translated/vertex.js:187-204 | Every built edge is for a candidate. Either every candidate has one, in order (none lost without `alledges`), or, without `alledges`, the only edge is the first candidate whose child is lost, every earlier one safe. Every child is cut at the target, and the vertex ends as `Outcome` says for the edges. |
| Vertices.Vertex.ExpandLeaf | docs/translated/vertex.js:164-205 | expand fails without a top figure and leaves the vertex unchanged. Otherwise the vertex keeps edges unless check decided it. |
| Vertices.Vertex.Attach | docs/translated/vertex.js:187-204 | The new edges become the vertex's, check runs on them, and the children's states stay as cut. |
| Vertices.Vertex.CheckGrown | docs/translated/vertex.js:204 | check over fresh edges leaves every child's state as it was. |
| Vertices.Vertex.Check | docs/translated/vertex.js:248-291 | check sets (state, edges) to `Outcome` of the sorted children; without edges it changes nothing. |
| Vertices.Vertex.Estimate | docs/translated/vertex.js:221-245 | A decided vertex, or level 0, is left alone. An unknown vertex expanded here keeps edges or is decided. The tree stays valid. |
| Vertices.Vertex.EstimateChildren | docs/translated/vertex.js:227-242 | The child loop changes only the children's trees. When the edges lead to distinct vertices, `seen` is the states of the children estimated, in order (`Recorded`). Without `alledges` none of them but the last is lost, or unknown when the defence moves, and the loop stops early only at such a child. |
| Vertices.RecordedStates | docs/translated/vertex.js:227-242 | `Recorded(es, seen)` holds exactly when `seen[j]` is the state of child j, for each j below the length of `seen`. |
| Vertices.RecordedNext | docs/translated/vertex.js:229-232 | Recording the next child's state extends the record. |
| Vertices.Vertex.SiblingsUntouched | docs/translated/vertex.js:230-232 | While only one child's footprint changes, every other child stays as it was. |
| Vertices.Vertex.EstimateChild | docs/translated/vertex.js:230-232 | Estimating one child leaves this vertex's state and edges, and every other child, unchanged. The child is left alone when decided or at level 0; otherwise it keeps edges or is decided. |
| Vertices.Vertex.NewRoot | docs/translated/vertex.js:51-52 | The root wraps `alignType(OPEN_TWO)` of the position and is prepared. |
| Vertices.Vertex.Deepen | docs/translated/vertex.js:57-62 | The level loop keeps the tree valid. |
| Vertices.Vertex.Report | docs/translated/vertex.js:63-71 | The root state becomes `Reported`. |
| Vertices.Vertex.EstimateRoot | docs/translated/vertex.js:44-73 | The root wraps the aligned position. Its state never favours the wrong side, and is 0 or within the target. |
| Boards.SquareToCoord | docs/translated/board.js:484-489 | A coordinate is a column letter followed by a number. |
| Boards.CoordToSquare | docs/translated/board.js:492-497 | Its row is 15 minus the number and its column the letter's offset from 'a'. |
| Boards.CoordOfSquare | docs/translated/board.js:484-497 | Every board square's coordinate reads back as the same square. |
| Boards.SquareOfCoord | docs/translated/board.js:484-497 | Every board coordinate names a board square that writes back as the same coordinate. |
| Boards.SquareToCoordInjective | docs/translated/board.js:484-489 | Different board squares have different coordinates. |
| Boards.DecimalOfNumeral | docs/translated/board.js:484-497 | `parseInt` of `String(n)` is n. |
| Boards.NumeralOfDecimal | docs/translated/board.js:484-497 | `String(parseInt(s))` is s for a numeral without leading zeros. |
| Boards.SquareTransCode | docs/translated/board.js:457-476 | The code is one of the eight symmetries. |
| Boards.SecondMoveInSector | docs/translated/board.js:457-476 | Every square but the centre, moved back by its code, lands in the 35-square sector `availables` offers. |
| Boards.Fill | docs/translated/board.js:438-454 | fillCount returns a stored count as is. Otherwise it stores a count that is one more than the largest below, at least 1, and keeps the keys. |
| Boards.LargestSpec | docs/translated/board.js:440-450 | The maximum search is at least every count below and equals one of them, or 0. |
| Boards.LargestIs | docs/translated/board.js:440-450 | The result does not depend on the key order. |
| Boards.FillIdempotent | docs/translated/board.js:438-454 | A filled solution is not changed again and keeps its count. |
| Boards.FillCount | docs/translated/board.js:438-454 | The method computes `Fill`. |
| Boards.Count | docs/translated/board.js:426-430 | 225 without a solution, n - 1 for a number, fillCount - 1 for an object (non-negative when unfilled). |
| Boards.CountAgain | docs/translated/board.js:426-454 | Counting a filled solution again gives the same number. |
| Boards.SolutionShape | docs/translated/board.js:507-519 | An unexpanded vertex gives the absolute value of its state. An expanded one gives `current`'s keys and count plus every edge's coordinate, holding the child's solution where the square comes once. |
| Boards.PutKeys | docs/translated/board.js:510-514 | After i edges the keys are the old keys plus those edges' coordinates. |
| Boards.PutValue | docs/translated/board.js:510-514 | An edge's coordinate holds its child's solution unless a later edge has the same square. |
| Boards.VertexToSolution | docs/translated/board.js:507-519 | The method computes `SolutionOf`. |
| Boards.PutEdges | docs/translated/board.js:510-514 | The edge loop puts every edge, in order. |

## Left out

- `Layout.addLine_` (layout.js:271-277) has no method of its own. `LayoutLines.InsertedSorted` states what it returns on increasing lines.
- `Layout.prototype.hashCode` and `Line.prototype.hashCode` are hash functions. Layout's version also writes an undeclared variable (layout.js:374). Nothing in the core's logic depends on them.
- `Line.prototype.equals` is object identity plus the `Comparator == 0` test, which `Lines.ComparatorOrder` states.
- The Vertex constructor's non-Layout branch (vertex.js:21-23) calls `slice` on `arguments`, which has none. Every caller in the core passes a Layout.
- The board UI, DOM, timers, `Board.coordTransCode` and `python/pattern.py` are not part of this model.
- Patterns.NewPattern and Patterns.PackStones require templates of at most 15 cells. Beyond that, JavaScript's 32-bit shifts wrap. The catalog's templates are at most 12 cells.
- Evident intent is followed at these points:
  - pattern.js:29 writes the loop step as `-i`, which never ends; the model steps down.
  - line.js:14 and 32 read an undefined `buy` for `blen`.
  - layout.js:52 and 61 use a bare `BLACK` for `Layout.BLACK`.
  - layout.js:309 reads `this.linse` for `this.lines`.
  - layout.js:520, 532 and 582 call `checkLines` and `transCode` unqualified; they are read as `Layout.checkLines` and `this.transCode`.
- Layouts.Empty: 0 for the type stands for an absent argument (`type || Pattern.ONE`). Likewise, 0 stands for an absent `computetarget` or `estimatedepth` in Vertices.Vertex.EstimateRoot.
- Sorting.Sort is a stable insertion sort standing in for `Array.prototype.sort`. The model relies only on its result being a sorted permutation. Where the comparator ties, the engine's order may differ, so figure and edge lists are compared as sets. Given a figure list, the lists of squares built from it (`gains`, `downs`, the candidate moves) are stated exactly, in order.
- LayoutLines.StoneFrom answers -1 where `getStone` would read past the end of the line list (every line a row line and none the square's). The source throws a TypeError there.
- Transposition.TransCode and Transposition.Equal require framed line lists (a row line first, a diagonal last). On other lists the source's counting loops read past the end. `Transposition.FramedLines` shows every non-empty board's lines are framed.
- Transposition.CheckLines requires at least one line to compare, because the source reads the first line before its loop.
- The source's `expand` is split in two. Vertices.Vertex.ExpandLeaf computes the candidate moves. Vertices.Vertex.Expand runs the edge loop and `check` on them. Estimate calls ExpandLeaf where the source calls `expand`.
- Vertices.Vertex.ExpandLeaf reports reading `top().pattern` on a position without figures as an error, and leaves the vertex unchanged. The source throws a TypeError. Its contract states only what `estimate` needs. What the edges are is stated on Vertices.Vertex.Expand, which it calls.
- Vertices.Vertex.Estimate states the frame and the cases that leave a vertex alone. It does not state the final state as a function of the whole subtree. The state that results is stated one level at a time, by `Check` and `Outcome`.
- Vertices.Vertex.EstimateChildren ties `seen` to the children's states only when the edges lead to distinct vertices (`DistinctChildren`). The source's `expand` always builds such edges, and `check` keeps a selection of them. The model's `Valid` does not record this, so the contract states the tie under that condition. Without it, a vertex reached twice would be estimated twice, as in the source.
- Vertices.Vertex.EstimateChild states what is left alone and that an unknown child ends expanded or decided. It does not state the child's resulting state as a function of its subtree, for the same reason as Vertices.Vertex.Estimate.
- Transposition.TransCodeOf: the converse of `TransCodeMeaning` is not proved, except for a position and itself (`TransCodeSelf`). That converse says two boards related by a symmetry always get a code of 0 or more. Which code `transCode` returns, when several fit, follows its scan order: the row block first, then the column block, with the flags tried in the order 1, 2, 4, 8.
- The figure list and rating of a position moved by a board symmetry are not stated to equal the original's. A symmetry maps a line onto another line, sometimes read backwards. `some` keeps the first accepted pattern of each catalog group, so a reversed line can report a different pattern of the same group, at a different offset. Invariance would therefore need the catalog's groups to be closed under reversal with equal types and ratings, and the model does not relate figures across line numbers.
- Vertices.Vertex.Deepen and Vertices.Vertex.Report split the body of the static `Vertex.estimate` into its level loop and its final adjustment. Vertices.Vertex.Deepen states only that the tree stays valid.
- An error from `makeMove` deep in the search (a taken square, which `Shows` rules out for candidates) is passed up as `err` instead of an exception. Vertices.Vertex.Grow then leaves no partial edges on the vertex.
- Vertices.Vertex.Check models the `state !== -128` guard as written, although no state of the solver is -128.
- Boards.SquareToCoord writes the row with `String(15 - row)`. This is exact for squares below 2^31. Boards.CoordToSquare reads only a letter followed by a decimal number (WellFormedCoord), not every string `parseInt` accepts.
- Boards.Count and Boards.FillCount return the filled solution instead of updating the object in place. A solution object is a map, so the order of its keys is not modelled. `Boards.LargestIs` shows that the count does not depend on it.
- Boards.VertexToSolution takes `current` as an object or absent. A number passed as `current` is not modelled.
- The model makes no claim that the search is complete or optimal as a game-theoretic solver. It states what each operation computes.
