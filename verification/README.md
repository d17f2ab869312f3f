# Minesweeper engine, modelled and verified in Dafny

This project models the engine under a Tkinter Minesweeper game (`main.py`)
and proves what it does. The engine has four parts:

- **Map generation** (`generate_map`). The first click fixes a safe zone: the
  clicked cell's 3x3 block, clipped to the board. A shuffled list of mine
  markers (`-1`) and blanks (`0`) is poured row-major into the four rectangles
  around that zone: above, left, right and below. `np.argwhere` then lists
  the mines row by row. Each mine adds 1 to every cell of its clipped block,
  and the mine cells are reset to `-1`. A map is thrown away and drawn again
  when the opening check rejects it or when it holds a 7 or an 8. The game
  has no image for counts above 6.
- **The opening check** (`is_map_solvable`). This is a read-only walk round
  the zero region of the click, anticlockwise. It accepts the map as soon as
  a diagonal cell holds 0. It rejects the map when the walk closes on the row
  it started from. It indexes the grid with numpy's rules: an index of -1
  wraps to the far side, and an index past the end raises `IndexError`.
- **Revealing** (`reveal_map`). It acts on covered tiles only:
  - a mine explodes and ends the game;
  - a number is shown and `safe_tile_count` drops by one;
  - a blank is shown and its whole clipped block is opened, blank
    neighbours recursively.
- **The game object** (`MineSweeper`).
  - `left_click`: the first click generates the map, starts the game,
    reveals the cell and starts the timer. A later click reveals the tile if
    it is still covered. Either way the game ends, won, when
    `safe_tile_count` reaches 0.
  - `right_click`: toggles covered and flagged.
  - `game_end`: stops the timer and unbinds the clicks. It then shows the
    win, or shows every mine that did not explode and the loss.
  - `change_time`: one timer tick.

Behaviour of the code as written, which the model keeps:

- **Flagged neighbours in the flood.** The flood shows a number on every
  tile of a blank's block, flagged ones included. It decrements
  `safe_tile_count` only for tiles that were covered. So a flagged safe
  neighbour is opened without being counted.
  - The model tracks those tiles in a ghost counter, `silentReveals`. Each
    reveal adds to it exactly the flagged tiles it opened. The class
    invariant is that `safe_tile_count` equals the number of unopened safe
    tiles plus `silentReveals`.
  - `Game.MineSweeper.SilentRevealBlocksWin` proves that once this has
    happened, opening every safe tile no longer brings the count to 0.
- **A board without mines.** `np.nditer` over an empty mine list raises
  `ValueError`, so a request for zero mines escapes the first click with
  that exception.
- **Negative sizes.** A request whose blank count would be negative also
  raises `ValueError`, from `np.zeros` or `np.full`.
- **The flood is the least closed one.** A blank's flood reveals its whole
  block, and every blank it reveals does the same. It changes no cell outside
  the smallest set of cells closed in that way around the clicked tile.
- **Retries.** After a retry the second screen looks again at the board the
  retry returned, which has already passed it, so the board is kept. The
  returned board is therefore the first shuffle's board that passes both
  screens (`Generate.Draw`).
- **Raised exceptions.** An `IndexError` from the opening check leaves the
  click handler too. Nothing is assigned in either case.

Modules:

| module | file | contents |
|---|---|---|
| `Board` | `board.dfy` | positions, grids, clipped 3x3 blocks, mine sets and neighbour counts |
| `Layout` | `layout.dfy` | the border, the safe zone, the four regions, and the cell each marker lands on |
| `Fairness` | `fairness.dfy` | numpy lookups, the walk as functions, `is_map_solvable` as a method with loops, and what the walk decides |
| `Generate` | `generate.dfy` | `generate_map` over `array2<int>`: placement, `argwhere`, counting, reset, and the two screens with retry |
| `Views` | `views.dfy` | tile images as a grid value, and the sets the bookkeeping counts |
| `Game` | `game.dfy` | the class `MineSweeper` with its handlers |

The random shuffle is an input: `shuffles[i]` is the list the i-th attempt
of `generate_map` draws.

## Model

| member | source | states |
|---|---|---|
| Board.BlockIsClippedSlice | main.py:305-318 | the clipped row and column ranges the counting pass computes (and the flood's `range` bounds) bound exactly the 3x3 block around the cell, cut to the board |
| Board.BlockSymmetric | main.py:304-318 | a cell is in a mine's block exactly when the mine is in the cell's block |
| Board.RectCard | main.py:250 | a slice of h rows and w columns has h*w cells |
| Board.ZeroCellHasNoMineNeighbour | main.py:140-157 | in a correctly counted grid, no cell in a 0 cell's block is a mine, so the flood never opens a mine |
| Board.CountsIsolateBlanks | main.py:140-157 | correct counts keep every blank away from every mine |
| Board.CountedGrid | main.py:304-321 | the grid with mines on a given set of cells and every other cell counting its block has exactly that mine set and correct counts |
| Board.CountedGridUnique | main.py:304-321 | a correctly counted grid is determined by its mines: it is the counted grid of its own mine set |
| Layout.ClipBorder | main.py:244-248 | the border lies on the board around the click, and the zone it bounds is exactly the click's clipped 3x3 block |
| Layout.SizeOfStartIsArea | main.py:250 | `size_of_start` is the number of cells of the clipped block, between 1 and 9 |
| Layout.RegionSizesAreAreas | main.py:250-300 | `region_a_size` .. `region_d_size` and `size_of_start` are the numbers of cells of the rectangles above, left of, right of and below the safe zone, and of the zone itself |
| Layout.RegionsCoverOutside | main.py:250-300 | the four region sizes are non-negative and add up to `rows*cols - size_of_start`, the length of the shuffled list |
| Layout.FlatIndexInverse | main.py:273-300 | every cell outside the safe zone receives a marker whose index is in range and names that cell back |
| Layout.CellOfInverse | main.py:273-300 | every marker lands on an on-board cell outside the safe zone, and its index is recovered from that cell |
| Layout.MarkerOfCell | main.py:273-300 | the k-th entry of the shuffled list is the marker placed on the k-th cell outside the safe zone |
| Layout.MarkedMinesAreMarkers | main.py:252-300 | a cell gets a mine exactly when its marker is -1, and such a cell is outside the safe zone |
| Layout.MarkedMinesCount | main.py:252-300 | the cells that receive a mine number exactly the mine markers in the shuffled list, all on the board |
| Layout.MarkedPrefixGrows | main.py:273-300 | one more marker adds its cell when it is a mine, and that cell was not marked before |
| Layout.MarkedPrefixCount | main.py:252-300 | the first i markers put mines on as many distinct cells as they hold mine markers |
| Fairness.AtWraps | main.py:341 | numpy indexing: a lookup succeeds exactly when -rows <= row < rows and -cols <= col < cols, and then reads the cell at row mod rows, col mod cols; any other index raises IndexError |
| Fairness.Climb | main.py:340-343 | where the first loop stops, the next cell up is on the grid and not 0, and the stopping cell is the start or a 0 |
| Fairness.SlideChecking | main.py:345-349 | where a checking loop stops, the next cell along is on the grid and not 0, and the stopping cell is the start or a 0 whose side cell is not 0 |
| Fairness.RunLeg | main.py:345-352 | a leg of the walk never rejects the map: it accepts, raises, or continues from a cell whose next cell along and whose diagonal corner are both non-zero; only the final row comparison rejects |
| Fairness.Get | main.py:341 | reading the array with numpy's index rules gives the lookup on the grid's snapshot |
| Fairness.SlideAlong | main.py:346-349 | the while loop that moves and checks the side cell ends as the specified slide does: stopped at a cell, diagonal found, or IndexError |
| Fairness.IsMapSolvable | main.py:331-390 | the method returns the walk's verdict on the grid and writes nothing (Some(true) accept, Some(false) reject, None IndexError) |
| Fairness.WalkRejectsOnlyOnClosing | main.py:331-390 | the walk answers False only when the climb and all four legs ran without raising, no diagonal check found a 0, and the final loop stopped on the row the climb reached |
| Fairness.ClimbStops | main.py:340-343 | where the climb stops, every cell stepped onto holds 0 and the next cell up is on the grid and not 0 |
| Fairness.SlideStops | main.py:345-349 | where a checking loop stops, every cell stepped onto holds 0, every side cell checked is not 0, and the next cell along is not 0 |
| Fairness.ClimbRuns | main.py:340-343 | conversely, k zero cells followed by a non-zero one stop the climb after exactly k steps |
| Fairness.SlideRuns | main.py:345-349 | k zero cells with non-zero side cells, then a non-zero one, stop a checking loop after exactly k steps |
| Fairness.ClimbToTop | main.py:340-343 | inside an isolated zero rectangle the climb stops on the rectangle's top row |
| Fairness.LeftAlongTop | main.py:345-349 | along the top of an isolated rectangle the leftward walk stops at its left edge |
| Fairness.DownAlongLeft | main.py:354-358 | along the left edge it stops at the bottom row |
| Fairness.RightAlongBottom | main.py:363-367 | along the bottom it stops at the right edge |
| Fairness.UpAlongRight | main.py:372-376 | along the right edge it stops at the top row |
| Fairness.RectangularOpeningRejected | main.py:331-390 | when the zero region around the click is a rectangle ringed by non-zero cells, the check rejects the map |
| Fairness.AcceptedOpeningIsNotRectangle | main.py:323-324 | a map the check accepts has no such rectangle around the click |
| Generate.FillRegion | main.py:276-279 | after the slice assignment, the slice holds the submap row-major and every other cell is unchanged |
| Generate.NothingPoured | main.py:275 | a region of size 0 is skipped and the board stays as it was |
| Generate.FillStep | main.py:273-300 | pouring region k into its slice extends the board filled through region k-1 to one filled through region k |
| Generate.PourRegion | main.py:274-279 | one guarded region step: the board becomes filled through this region and the cursor `count` advances by the region size |
| Generate.RegionASlice | main.py:274-279 | region a is the rows above the zone, its size is as computed, and its submap markers are the cells' markers |
| Generate.RegionBSlice | main.py:281-286 | the same for region b, left of the zone |
| Generate.RegionCSlice | main.py:288-293 | the same for region c, right of the zone |
| Generate.RegionDSlice | main.py:295-300 | the same for region d, below the zone |
| Generate.PlaceAboveLeft | main.py:258-286 | the zero board with regions a and b poured, and the cursor after them |
| Generate.Place | main.py:258-300 | after placement every cell holds its marker from the shuffled list, and the safe zone holds 0 |
| Generate.FindMines | main.py:302 | the mine list holds exactly the mine cells, each once, in row-major order |
| Generate.Contains | main.py:326 | true exactly when some cell holds the value |
| Generate.IncrementRect | main.py:318 | every cell of the slice goes up by 1 and no other cell changes |
| Generate.AddCounts | main.py:304-318 | each cell goes up by the number of listed mines whose clipped block contains it |
| Generate.ResetMines | main.py:320-321 | every listed cell becomes -1 and every other cell keeps its value |
| Generate.AscendingCard | main.py:302 | a row-major list names as many distinct cells as it has entries |
| Generate.LastIsNew | main.py:302 | the last cell of a row-major list is not among the earlier ones |
| Generate.NearCountIsBlockCount | main.py:304-318 | what the counting pass adds to a cell is the number of mines in its clipped block |
| Generate.CountedMines | main.py:304-321 | after counting and reset, the mines are the placed mines, which are the listed cells |
| Generate.CountedMapIsValid | main.py:304-321 | after counting and reset, every non-mine cell holds the number of mines in its clipped block |
| Generate.PlacedMines | main.py:252-300 | the placed board has exactly the shuffled list's mines, none in the safe zone |
| Generate.PlacedValues | main.py:252-300 | a placed board holds only 0 and -1 |
| Generate.HasSevenOrEight | main.py:326 | false exactly when no cell holds 7 or 8 |
| Generate.PlacedAndListed | main.py:252-302 | one attempt lists `num_of_mines` mines, the placed mines, none in the safe zone |
| Generate.CountedAndListed | main.py:302-321 | the counted board has `num_of_mines` mines, none in the click's block, correct counts, and the list still names its mines |
| Generate.AttemptIsCounted | main.py:252-321 | the board one shuffle builds is correctly counted, has as many mines as the list has mine markers, and none in the click's block |
| Generate.IsAttempt | main.py:252-321 | a correctly counted board whose mines are the cells the markers land on is that shuffle's board |
| Generate.ResetIsAttempt | main.py:304-321 | after the counting pass and the reset the board is the shuffle's counted board, with the requested mines, none in the click's block, and its mine list |
| Generate.Draw | main.py:323-329 | which board `generate_map` ends with on a supply of shuffles: a kept board passes the opening check and holds no 7 or 8 |
| Generate.DrawKeptIsAttempt | main.py:323-329 | a kept board is the board built from one of the supplied shuffles |
| Generate.DrawKeptIsValid | main.py:239-329 | with well-formed shuffles, a kept board is a valid map: the requested mines, none in the click's block, correct counts, accepted by the opening check, no 7 or 8 |
| Generate.BuildMap | main.py:252-321 | one attempt either raises ValueError (exactly when there are no mines: `nditer` on an empty list) or returns a fresh board, which is the counted board of that shuffle, with its row-major mine list |
| Generate.GenerateMap | main.py:239-329 | raises ValueError exactly on a negative mine count, a negative blank count, or no mines (once an attempt is drawn); otherwise the outcome is `Draw` of the shuffles: the first board the opening check accepts and that holds no 7 or 8, an IndexError from the check, or no shuffle left; a returned board is valid and comes with its row-major mine list |
| Generate.ScreenOpening | main.py:323-324 | on the first shuffle's board: the walk's IndexError escapes, a rejected board is replaced by what the remaining shuffles give, and an accepted one goes on to the 7/8 screen; the outcome is `Draw` of the shuffles |
| Generate.ScreenCounts | main.py:326-327 | a board with no 7 or 8 is returned as it is; otherwise the outcome is `Draw` of the remaining shuffles |
| Generate.Retry | main.py:324 | the recursive call's outcome is `Draw` of the remaining shuffles; a returned board is fresh and valid, and it cannot raise ValueError |
| Generate.ClickIsBlank | main.py:244-321 | the clicked cell of a counted board holds 0 |
| Generate.ValidMapIsPlayable | main.py:323-329 | a generated map has isolated blanks, values -1..6, a non-empty mine list, a blank clicked cell and the requested mine count |
| Generate.BlockCard | main.py:305-318 | a clipped block holds its centre and at most 9 cells |
| Generate.CountsHaveTiles | main.py:326-327 | every cell of a generated map is a mine or a count 0..6, which `number_tile` has an image for |
| Generate.CountAtMostEight | main.py:304-318 | a non-mine cell counts at most 8 mines |
| Views.ToggleTwice | main.py:126-131 | two right clicks restore a tile, and a right click changes exactly covered and flagged tiles |
| Views.NoneUnrevealed | main.py:187-188 | no safe tile is left to open exactly when every safe cell is revealed |
| Views.UntouchedAgrees | main.py:97-105 | a board of covered or flagged tiles is consistent with any map |
| Views.MarkAgrees | main.py:138 | an image change keeps the tiles consistent with the map: numbers only on safe cells, bombs only on mines |
| Views.ShownAgrees | main.py:190-193 | showing bombs on mines keeps the tiles consistent |
| Views.ShowNext | main.py:190-193 | one more pass of the bomb loop puts the bomb image on its mine unless that mine exploded |
| Views.ShownAll | main.py:190-193 | a loop over a list naming every mine shows every mine that did not explode, and nothing else changes |
| Views.ExplodeThenShow | main.py:137-139 | an exploded mine followed by `game_end` leaves exactly the hit cell exploded and, on a loss, the other mines shown |
| Views.RevealOne | main.py:159-161 | revealing a covered, flagged or revealed tile only grows the view and uncovers that tile exactly when it was covered |
| Views.CoveredShrinks | main.py:140-142 | opening a covered tile strictly lowers the number of covered tiles, which bounds the flood's recursion |
| Views.CoveredNeverGrows | main.py:143-157 | revealing never adds covered tiles |
| Views.UncoveredSplit | main.py:143-157 | the tiles uncovered by two steps are those of the first plus those of the second, and the counts add |
| Views.ClosedChain | main.py:143-157 | two closed flood steps compose into a closed step, with the uncovered counts adding up |
| Views.ClosedAroundBlank | main.py:140-157 | opening a blank and then its whole block gives a closed flood |
| Views.BlockRowIsSafe | main.py:143-157 | every cell of a row of a blank's block is safe and the column range is on the board |
| Views.RectRevealed | main.py:143-157 | a revealed clipped slice is the revealed block |
| Views.SafeAccounting | main.py:154-157 | after a flood, the unopened safe tiles drop by the covered tiles opened plus the flagged tiles opened without a decrement |
| Views.NothingChanged | main.py:134 | a step that changes no tile changes nothing and stays within any set of cells |
| Views.UncoveredClickChangesNothing | main.py:135 | reveal_map on a tile that is not covered leaves the whole view as it was |
| Views.MarkBounded | main.py:159-161 | revealing one tile changes at most that tile |
| Views.ShutAfterGrowth | main.py:143-157 | a set of cells closed under the flood (every covered blank in it brings its block) stays closed once tiles are revealed |
| Views.BoundedChain | main.py:143-157 | two flood steps that each change only cells of every closed set containing their seeds compose into one such step |
| Views.BoundedAroundBlank | main.py:140-157 | revealing a covered blank and then flooding its block changes only cells of every closed set containing that blank |
| Views.SafeAfterToggle | main.py:126-131 | a right click does not change the set of unopened safe tiles |
| Views.SafeAfterMine | main.py:137-139 | hitting a mine and showing bombs does not change the set of unopened safe tiles |
| Views.InitialSafe | main.py:50 | on an untouched board the unopened safe tiles number cells minus mines |
| Game.Freeze | main.py:115 | the board `generate_map` returned, read into a grid value |
| Game.MineSweeper.constructor | main.py:44-50 | all tiles covered, game not started, no message, time 0, `safe_tile_count` = width*height - mines |
| Game.MineSweeper.WinMeansCleared | main.py:186-188 | a win message means every safe tile is revealed and no flagged tile was opened silently |
| Game.MineSweeper.SilentRevealBlocksWin | main.py:152-157 | once the flood has opened a flagged safe tile, `safe_tile_count` exceeds the unopened safe tiles, so revealing every safe tile still leaves it positive and the game is not won |
| Game.MineSweeper.RightClick | main.py:126-131 | a click on a game that takes input toggles exactly that tile (covered and flagged swap, any other image stays); otherwise nothing changes |
| Game.MineSweeper.ChangeTime | main.py:217-220 | one tick adds one second and keeps the timer running |
| Game.MineSweeper.GameEnd | main.py:180-194 | stops the timer and unbinds input; with no safe tile left announces the win with the elapsed time and changes no tile; otherwise shows every mine that did not explode and announces the loss |
| Game.MineSweeper.ShowBombs | main.py:190-193 | every mine that did not explode shows a bomb, and every other tile is unchanged |
| Game.MineSweeper.RevealMap | main.py:133-161 | only a covered tile is acted on. A mine explodes and ends the game without changing the count. A number is revealed alone. A blank opens a flood of safe tiles that is closed (every blank opened has its whole block revealed) and least (it changes only cells of every closed set containing the click); the count drops by exactly the covered tiles uncovered |
| Game.MineSweeper.RevealBlank | main.py:140-157 | a covered blank is revealed and its whole block opened, changing only cells of every closed set containing it; the count drops by exactly the tiles uncovered |
| Game.MineSweeper.RevealBlock | main.py:143-157 | the two loops reveal every tile of the blank's block, only grow the view, change only cells of every closed set containing the block, and drop the count by the tiles uncovered |
| Game.MineSweeper.RevealRow | main.py:147-157 | the inner loop reveals every column of its row range and changes only cells of every closed set containing that row range |
| Game.MineSweeper.RevealNeighbour | main.py:151-157 | a neighbour ends up revealed, a blank one after its own least closed flood; the count drops only for a tile that was still covered |
| Game.MineSweeper.LeftClick | main.py:109-124 | ignored once input is unbound. The first click either leaves the state unchanged (ValueError exactly on a bad mine request; IndexError or exhausted shuffles) or starts a game on a valid map and opens the least closed flood from the clicked tile, a clicked tile that is not covered (a flag) changing nothing; with a valid mine request the outcome is exactly the one `Draw` of the shuffles dictates. A later click acts only on a covered tile: a mine loses, a safe tile opens its least closed flood. The count drops by the covered tiles opened, the ghost count of silently opened flagged tiles grows by exactly those, and the win message `Won(timeElapsed)`, with the seconds on the clock, appears exactly when the count is 0; a click never touches the clock |
| Game.MineSweeper.FirstClick | main.py:114-124 | the first click's branch: the outcome is `Draw` of the shuffles (the kept board becomes the map, the walk's IndexError escapes, or the shuffles run out), the clicked tile opens its least closed flood, or nothing changes when it is not covered, and the count and ghost count are tied to the tiles opened; the clock is untouched and a win shows its seconds |
| Game.MineSweeper.LaterClick | main.py:119-124 | the later click's branch: a covered mine loses; a covered safe tile opens its least closed flood with the count dropping by the covered tiles opened; the game is won, showing `Won(timeElapsed)`, exactly when the count reaches 0 |
| Game.MineSweeper.CheckCleared | main.py:123-124 | with no safe tile left the game ends as a win at the current time; otherwise nothing changes |
| Game.MineSweeper.StartGame | main.py:115-124 | stores the map and mine list, starts the game, opens the least closed flood from the clicked tile (nothing when it is flagged) with the count tied to the tiles opened, keeps the invariant, and shows `Won(timeElapsed)` exactly when no safe tile is left |
| Game.MineSweeper.Begin | main.py:114-124 | the first click once the map is read: the game starts on exactly that map and opens the least closed flood from the clicked tile, changing no tile when it is not covered; the clock is untouched and a win shows `Won(timeElapsed)` |
| Game.MineSweeper.OpenFirst | main.py:117-124 | opens the least closed flood from the clicked blank (changing no tile when it is flagged), starts the timer, then ends the game with `Won(timeElapsed)` exactly when nothing is left to open |
| Game.MineSweeper.StartClock | main.py:118-124 | the timer starts, no tile changes, and the game ends with `Won(timeElapsed)` exactly when no safe tile is left |
| Game.MineSweeper.Install | main.py:115-116 | the stored map is playable, the untouched tiles agree with it, and the count equals the unopened safe tiles |
| Game.MineSweeper.OpenTile | main.py:120-121 | a covered mine explodes and ends the game with the count unchanged; a covered safe tile opens its least closed flood, the count drops by the covered tiles opened and the ghost count grows by the flagged ones opened |
| Game.MineSweeper.RevealCounted | main.py:117 | `reveal_map` on the clicked tile: a safe tile opens its least closed flood, the count drops by the covered tiles opened and the ghost count grows by exactly the flagged tiles opened; a mine leaves both unchanged |

## Left out

- The Tkinter widgets: the window, frames, labels, combobox, button,
  `display_message` and `mainloop`. `game_win` and `game_lose` are modelled
  only as the message the game ends with.
- PIL image loading and `PhotoImage`. A tile's image is a `Tile` value, and
  a revealed tile stands for `number_tile[n]` of its cell's count.
- `config.json` and the difficulty presets. The width, height and mine
  count are constructor parameters.
- Timer scheduling with `after` and `after_cancel`. The pending callback is
  a flag, `timerRunning`, and `ChangeTime` is one tick.
- `np.random.default_rng().shuffle`. Each attempt's shuffled list is an
  input.
- Generate.GenerateMap: the retry recursion is unbounded in the code. Here
  it is bounded by the supplied shuffles, and running out is a separate
  outcome (`OutOfShuffles`, seen by the click as `Exhausted`). Python's
  recursion limit is not modelled, neither here nor in the flood fill.
- Locating the clicked label with `np.argwhere(self.list_of_box == box)`.
  The click handlers take the position directly.
- `new_game`, `refresh_window` and `change_difficulty`. A new game is a new
  object.
- The map `self.map` is held as a grid value. The class only ever replaces
  it and never writes into it.
- Integers are unbounded. numpy's `int` dtype cannot overflow at board
  sizes.
