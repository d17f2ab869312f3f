/** The game object: the grid of tile labels, the content map generated on the
    first click, the count of safe tiles still to open, the timer and the
    end-of-game message. */
module Game {
  import opened Board
  import opened Layout
  import opened Generate
  import opened Views

  /** The message window game_win or game_lose opens. */
  datatype Message = NoMessage | Won(seconds: nat) | Lost

  /** How a left click ends: normally, with an exception escaping the
      handler (the map generator's), or with the supplied shuffles used up
      before a fair map was found. */
  datatype ClickOutcome = Handled | Escaped(error: Failure) | Exhausted

  /** The board generate_map returned, read into a grid value. */
  method Freeze(m: array2<int>) returns (g: seq<seq<int>>)
    ensures g == Snapshot(m)
  {
    g := [];
    for r := 0 to m.Length0
      invariant |g| == r
      invariant forall i :: 0 <= i < r ==> g[i] == Snapshot(m)[i]
    {
      var line := [];
      for c := 0 to m.Length1
        invariant |line| == c
        invariant forall j :: 0 <= j < c ==> line[j] == m[r, j]
      {
        line := line + [m[r, c]];
      }
      g := g + [line];
    }
  }

  class MineSweeper {
    /** current_dimension: height, width and number of mines. */
    const rows: nat
    const cols: nat
    const mines: int
    /** list_of_box: the image each tile label shows. */
    const tiles: array2<Tile>
    /** self.map: meaningful once the game has started. The class only reads
        it and replaces it, so it is held as a grid value. */
    var content: seq<seq<int>>
    /** self.bomb_coor */
    var bombCoor: seq<Pos>
    var gameStart: bool
    var safeTileCount: int
    var timeElapsed: nat
    /** time_id holds a pending change_time call. */
    var timerRunning: bool
    /** The click handlers are still bound to the labels. */
    var inputBound: bool
    var message: Message
    /** Where the first click landed. */
    ghost var firstClick: Pos
    /** Flagged safe tiles the flood fill opened without decrementing
        safe_tile_count. */
    ghost var silentReveals: nat

    ghost function View(): seq<seq<Tile>>
      reads tiles
    {
      Snapshot(tiles)
    }

    /** The map of a started game is playable. */
    ghost predicate MapValid()
      reads this`content, this`bombCoor
    {
      PlayableMap(content, bombCoor, rows, cols)
    }

    /** Number images sit only on safe cells, bomb images only on mines. */
    ghost predicate TilesAgree()
      reads this`content, tiles
    {
      && tiles.Length0 == rows && tiles.Length1 == cols
      && IsGrid(content, rows, cols)
      && Agrees(View(), content, rows, cols)
    }

    /** The shape of the state: tiles before the first click are covered or
        flagged; afterwards the map is valid and the tiles agree with it. */
    ghost predicate Valid()
      reads this`content, this`bombCoor, this`gameStart, tiles
    {
      && tiles.Length0 == rows && tiles.Length1 == cols
      && (!gameStart ==> Untouched(View(), rows, cols))
      && (gameStart ==> MapValid() && TilesAgree())
    }

    /** Valid, and the bookkeeping agrees with the tiles: before the first
        click safe_tile_count is its initial value; afterwards it is the
        number of unopened safe tiles plus the silently opened ones. A game
        that takes clicks shows no message, and a game that ended shows one. */
    ghost predicate Accounted()
      reads this`content, this`bombCoor, this`gameStart, this`safeTileCount, this`inputBound,
        this`message, this`silentReveals, tiles
    {
      && Valid()
      && (!gameStart ==>
            inputBound && message == NoMessage && silentReveals == 0
            && safeTileCount == rows * cols - mines)
      && (gameStart ==>
            |bombCoor| == mines
            && safeTileCount == |UnrevealedSafe(View(), content, rows, cols)| + silentReveals)
      && (inputBound ==> message == NoMessage)
      && (!inputBound ==> gameStart && message != NoMessage)
      && (message.Won? ==> safeTileCount == 0)
    }

    /** The state between two clicks: accounted for, the timer runs exactly
        while a started game still takes clicks, such a game has a safe tile
        left to open, and a win message shows the seconds on the clock. */
    ghost predicate Consistent()
      reads this, tiles
    {
      && Accounted()
      && timerRunning == (gameStart && inputBound)
      && (gameStart && inputBound ==> safeTileCount > 0)
      && (message.Won? ==> message == Won(timeElapsed))
    }

    /** A fresh window: every tile covered and safe_tile_count set to the
        number of cells minus the number of mines. */
    constructor (width: nat, height: nat, numOfMines: int)
      ensures Consistent() && fresh(tiles)
      ensures rows == height && cols == width && mines == numOfMines
      ensures !gameStart && inputBound && timeElapsed == 0 && message == NoMessage
      ensures safeTileCount == width * height - numOfMines
      ensures forall r, c :: 0 <= r < rows && 0 <= c < cols ==> tiles[r, c] == Covered
    {
      rows, cols, mines := height, width, numOfMines;
      tiles := new Tile[height, width]((r, c) => Covered);
      content := [];
      bombCoor := [];
      gameStart := false;
      safeTileCount := width * height - numOfMines;
      timeElapsed := 0;
      timerRunning := false;
      inputBound := true;
      message := NoMessage;
      firstClick := Pos(0, 0);
      silentReveals := 0;
    }

    /** The win message means every safe tile shows its number: the game is
        won only when nothing safe is left to open. */
    lemma WinMeansCleared()
      requires Accounted() && message.Won?
      ensures gameStart && silentReveals == 0
      ensures forall r, c :: 0 <= r < rows && 0 <= c < cols && content[r][c] != MINE ==> tiles[r, c] == Revealed
    {
      NoneUnrevealed(View(), content, rows, cols);
    }

    /** Once the flood has opened a flagged safe tile, safe_tile_count stays
        above the number of safe tiles still to open, so opening all of them
        leaves it positive and the game is not won. */
    lemma SilentRevealBlocksWin()
      requires Accounted() && gameStart && silentReveals > 0
      ensures safeTileCount > |UnrevealedSafe(View(), content, rows, cols)|
      ensures (forall r, c :: 0 <= r < rows && 0 <= c < cols && content[r][c] != MINE ==> tiles[r, c] == Revealed)
        ==> safeTileCount > 0 && !message.Won?
    {
      NoneUnrevealed(View(), content, rows, cols);
    }

    /** right_click: a covered tile gets a flag and a flag is taken back; any
        other image stays. Nothing happens once the handlers are unbound. */
    method RightClick(p: Pos)
      requires Consistent() && OnBoard(p, rows, cols)
      modifies tiles
      ensures Consistent()
      ensures inputBound ==> Marked(old(View()), View(), rows, cols, p, Toggle(old(View())[p.row][p.col]))
      ensures !inputBound ==> unchanged(tiles)
    {
      if inputBound {
        ghost var v0 := View();
        tiles[p.row, p.col] := Toggle(tiles[p.row, p.col]);
        assert Marked(v0, View(), rows, cols, p, Toggle(v0[p.row][p.col]));
        if gameStart {
          MarkAgrees(v0, View(), content, rows, cols, p, Toggle(v0[p.row][p.col]));
          SafeAfterToggle(v0, View(), content, rows, cols, p);
        }
      }
    }

    /** change_time: one tick of the running timer. */
    method ChangeTime()
      requires Consistent() && timerRunning
      modifies this`timeElapsed
      ensures Consistent() && timerRunning
      ensures timeElapsed == old(timeElapsed) + 1
    {
      timeElapsed := timeElapsed + 1;
    }

    /** game_end: stop the timer and unbind the clicks; then either announce
        the win with the elapsed time, or show every mine that did not explode
        and announce the loss. */
    method GameEnd()
      requires MapValid() && TilesAgree()
      modifies this`inputBound, this`timerRunning, this`message, tiles
      ensures MapValid() && TilesAgree()
      ensures !inputBound && !timerRunning
      ensures safeTileCount == 0 ==> message == Won(timeElapsed) && unchanged(tiles)
      ensures safeTileCount != 0 ==> message == Lost
      ensures safeTileCount != 0 ==> BombsShown(old(View()), View(), content, rows, cols)
    {
      timerRunning := false;
      inputBound := false;
      if safeTileCount == 0 {
        message := Won(timeElapsed);
      } else {
        ShowBombs();
        message := Lost;
      }
    }

    /** The loss display of game_end: the loop over the mine list puts the
        bomb image on every mine that has not exploded. */
    method ShowBombs()
      requires MapValid() && TilesAgree()
      modifies tiles
      ensures TilesAgree() && BombsShown(old(View()), View(), content, rows, cols)
    {
      ghost var v0 := View();
      for i := 0 to |bombCoor|
        invariant TilesAgree()
        invariant BombsShownAt(v0, View(), rows, cols, bombCoor[..i])
      {
        var q := bombCoor[i];
        ghost var va := View();
        assert forall k :: 0 <= k < i ==> Before(bombCoor[k], q);
        assert bombCoor[..i + 1] == bombCoor[..i] + [q];
        if tiles[q.row, q.col] != Exploded {
          tiles[q.row, q.col] := BombShown;
          assert Marked(va, View(), rows, cols, q, BombShown);
          MarkAgrees(va, View(), content, rows, cols, q, BombShown);
        }
        ShowNext(v0, va, View(), rows, cols, bombCoor[..i], q);
      }
      assert bombCoor[..|bombCoor|] == bombCoor;
      ShownAll(v0, View(), content, rows, cols, bombCoor);
    }

    /** reveal_map: open the tile at p if it is covered. A mine explodes and
        ends the game; a number is shown; a blank is shown and every tile of
        its block is opened as well, the blank ones recursively. The flood
        only ever opens safe tiles; it shows a number on flagged neighbours
        too, but counts only the covered ones it opens. */
    method RevealMap(p: Pos)
      requires MapValid() && TilesAgree() && OnBoard(p, rows, cols)
      modifies this`safeTileCount, this`inputBound, this`timerRunning, this`message, tiles
      decreases |CoveredCells(View(), rows, cols)|, 4
      ensures MapValid() && TilesAgree()
      ensures old(tiles[p.row, p.col]) != Covered ==> unchanged(this) && unchanged(tiles)
      ensures old(tiles[p.row, p.col]) == Covered && content[p.row][p.col] == MINE ==>
        && !inputBound && !timerRunning && safeTileCount == old(safeTileCount)
        && message == (if safeTileCount == 0 then Won(timeElapsed) else Lost)
        && MineHit(old(View()), View(), content, rows, cols, p, safeTileCount != 0)
      ensures content[p.row][p.col] != MINE ==>
        && inputBound == old(inputBound) && timerRunning == old(timerRunning) && message == old(message)
        && Grown(old(View()), View(), rows, cols)
        && safeTileCount == old(safeTileCount) - |Uncovered(old(View()), View(), rows, cols)|
        && FloodClosed(old(View()), View(), content, rows, cols)
        && FloodBounded(old(View()), View(), content, rows, cols, {p})
        && (old(tiles[p.row, p.col]) == Covered ==> tiles[p.row, p.col] == Revealed)
      ensures content[p.row][p.col] > 0 && old(tiles[p.row, p.col]) == Covered ==>
        Marked(old(View()), View(), rows, cols, p, Revealed)
    {
      var row, col := p.row, p.col;
      if tiles[row, col] == Covered {
        var num := content[row][col];
        ghost var v0 := View();
        if num == MINE {
          tiles[row, col] := Exploded;
          ghost var v1 := View();
          assert Marked(v0, v1, rows, cols, p, Exploded);
          MarkAgrees(v0, v1, content, rows, cols, p, Exploded);
          GameEnd();
          ExplodeThenShow(v0, v1, View(), content, rows, cols, p, safeTileCount != 0);
        } else if num == 0 {
          RevealBlank(p);
        } else {
          tiles[row, col] := Revealed;
          safeTileCount := safeTileCount - 1;
          assert Marked(v0, View(), rows, cols, p, Revealed);
          MarkAgrees(v0, View(), content, rows, cols, p, Revealed);
          RevealOne(v0, View(), rows, cols, p);
          MarkBounded(v0, View(), content, rows, cols, p, Revealed, {p});
        }
      } else {
        NothingChanged(View(), content, rows, cols, {p});
      }
    }

    /** reveal_map on a covered blank: the blank shows its image, counts as
        opened, and its whole block is opened after it. */
    method RevealBlank(p: Pos)
      requires MapValid() && TilesAgree() && OnBoard(p, rows, cols)
      requires content[p.row][p.col] == 0 && tiles[p.row, p.col] == Covered
      modifies this`safeTileCount, this`inputBound, this`timerRunning, this`message, tiles
      decreases |CoveredCells(View(), rows, cols)|, 3
      ensures TilesAgree()
      ensures inputBound == old(inputBound) && timerRunning == old(timerRunning) && message == old(message)
      ensures Grown(old(View()), View(), rows, cols)
      ensures safeTileCount == old(safeTileCount) - |Uncovered(old(View()), View(), rows, cols)|
      ensures FloodClosed(old(View()), View(), content, rows, cols)
      ensures FloodBounded(old(View()), View(), content, rows, cols, {p})
      ensures tiles[p.row, p.col] == Revealed
    {
      ghost var v0 := View();
      tiles[p.row, p.col] := Revealed;
      safeTileCount := safeTileCount - 1;
      ghost var v1 := View();
      assert Marked(v0, v1, rows, cols, p, Revealed);
      MarkAgrees(v0, v1, content, rows, cols, p, Revealed);
      RevealOne(v0, v1, rows, cols, p);
      CoveredShrinks(v0, v1, rows, cols, p);
      RevealBlock(p, |CoveredCells(v0, rows, cols)|);
      UncoveredSplit(v0, v1, View(), rows, cols);
      ClosedAroundBlank(v0, v1, View(), content, rows, cols, p);
      BoundedAroundBlank(v0, v1, View(), content, rows, cols, p);
    }

    /** The two nested loops of reveal_map over the block of a blank cell p
        (its rows and columns clipped to the board): every tile of the block
        ends up showing its number. `bound` only measures the recursion. */
    method RevealBlock(p: Pos, ghost bound: nat)
      requires MapValid() && TilesAgree() && OnBoard(p, rows, cols) && content[p.row][p.col] == 0
      requires |CoveredCells(View(), rows, cols)| < bound
      modifies this`safeTileCount, this`inputBound, this`timerRunning, this`message, tiles
      decreases bound, 2
      ensures TilesAgree()
      ensures inputBound == old(inputBound) && timerRunning == old(timerRunning) && message == old(message)
      ensures Grown(old(View()), View(), rows, cols)
      ensures safeTileCount == old(safeTileCount) - |Uncovered(old(View()), View(), rows, cols)|
      ensures FloodClosed(old(View()), View(), content, rows, cols)
      ensures FloodBounded(old(View()), View(), content, rows, cols, Block(p, rows, cols))
      ensures forall n :: n in Block(p, rows, cols) ==> View()[n.row][n.col] == Revealed
    {
      ghost var v0 := View();
      var r0, r1 := ClipLow(p.row), ClipHigh(p.row, rows);
      var c0, c1 := ClipLow(p.col), ClipHigh(p.col, cols);
      BlockIsClippedSlice(p, rows, cols);
      NothingChanged(v0, content, rows, cols, Block(p, rows, cols));
      for currentRow := r0 to r1
        invariant TilesAgree()
        invariant inputBound == old(inputBound) && timerRunning == old(timerRunning) && message == old(message)
        invariant Grown(v0, View(), rows, cols)
        invariant safeTileCount == old(safeTileCount) - |Uncovered(v0, View(), rows, cols)|
        invariant FloodClosed(v0, View(), content, rows, cols)
        invariant FloodBounded(v0, View(), content, rows, cols, Block(p, rows, cols))
        invariant forall r, c :: r0 <= r < currentRow && c0 <= c < c1 ==> View()[r][c] == Revealed
      {
        ghost var va := View();
        CoveredNeverGrows(v0, va, rows, cols);
        BlockRowIsSafe(content, rows, cols, p, currentRow);
        RevealRow(currentRow, c0, c1, bound);
        ghost var vb := View();
        ClosedChain(v0, va, vb, content, rows, cols);
        RectPrefixStep(va, vb, rows, cols, r0, currentRow, c0, c1);
        assert Rect(currentRow, currentRow + 1, c0, c1) <= Rect(r0, r1, c0, c1);
        BoundedChain(v0, va, vb, content, rows, cols, Block(p, rows, cols), Rect(currentRow, currentRow + 1, c0, c1));
      }
      RectRevealed(View(), rows, cols, p);
    }

    /** The inner loop of reveal_map: the columns c0..c1-1 of one row, all
        safe cells. */
    method RevealRow(row: int, c0: int, c1: int, ghost bound: nat)
      requires MapValid() && TilesAgree() && 0 <= row < rows && 0 <= c0 <= c1 <= cols
      requires forall c :: c0 <= c < c1 ==> content[row][c] != MINE
      requires |CoveredCells(View(), rows, cols)| < bound
      modifies this`safeTileCount, this`inputBound, this`timerRunning, this`message, tiles
      decreases bound, 1
      ensures TilesAgree()
      ensures inputBound == old(inputBound) && timerRunning == old(timerRunning) && message == old(message)
      ensures Grown(old(View()), View(), rows, cols)
      ensures safeTileCount == old(safeTileCount) - |Uncovered(old(View()), View(), rows, cols)|
      ensures FloodClosed(old(View()), View(), content, rows, cols)
      ensures FloodBounded(old(View()), View(), content, rows, cols, Rect(row, row + 1, c0, c1))
      ensures forall c :: c0 <= c < c1 ==> View()[row][c] == Revealed
    {
      ghost var v0 := View();
      NothingChanged(v0, content, rows, cols, Rect(row, row + 1, c0, c1));
      for currentCol := c0 to c1
        invariant TilesAgree()
        invariant inputBound == old(inputBound) && timerRunning == old(timerRunning) && message == old(message)
        invariant Grown(v0, View(), rows, cols)
        invariant safeTileCount == old(safeTileCount) - |Uncovered(v0, View(), rows, cols)|
        invariant FloodClosed(v0, View(), content, rows, cols)
        invariant FloodBounded(v0, View(), content, rows, cols, Rect(row, row + 1, c0, c1))
        invariant forall c :: c0 <= c < currentCol ==> View()[row][c] == Revealed
      {
        ghost var va := View();
        CoveredNeverGrows(v0, va, rows, cols);
        RevealNeighbour(Pos(row, currentCol), bound);
        ghost var vb := View();
        ClosedChain(v0, va, vb, content, rows, cols);
        RowPrefixStep(va, vb, rows, cols, row, c0, currentCol);
        assert Pos(row, currentCol) in Rect(row, row + 1, c0, c1);
        BoundedChain(v0, va, vb, content, rows, cols, Rect(row, row + 1, c0, c1), {Pos(row, currentCol)});
      }
    }

    /** One pass of reveal_map's inner loop, on a cell next to a blank (so a
        safe cell): a blank neighbour is revealed recursively first; then the
        neighbour shows its number, and safe_tile_count drops if it was still
        covered (a flag is replaced without counting). */
    method RevealNeighbour(idx: Pos, ghost bound: nat)
      requires MapValid() && TilesAgree() && OnBoard(idx, rows, cols)
      requires content[idx.row][idx.col] != MINE
      requires |CoveredCells(View(), rows, cols)| < bound
      modifies this`safeTileCount, this`inputBound, this`timerRunning, this`message, tiles
      decreases bound, 0
      ensures TilesAgree()
      ensures inputBound == old(inputBound) && timerRunning == old(timerRunning) && message == old(message)
      ensures Grown(old(View()), View(), rows, cols)
      ensures safeTileCount == old(safeTileCount) - |Uncovered(old(View()), View(), rows, cols)|
      ensures FloodClosed(old(View()), View(), content, rows, cols)
      ensures FloodBounded(old(View()), View(), content, rows, cols, {idx})
      ensures View()[idx.row][idx.col] == Revealed
    {
      ghost var va := View();
      if content[idx.row][idx.col] == 0 {
        RevealMap(idx);
      } else {
        assert FloodClosed(va, View(), content, rows, cols);
        NothingChanged(va, content, rows, cols, {idx});
      }
      ghost var vb := View();
      if tiles[idx.row, idx.col] == Covered {
        safeTileCount := safeTileCount - 1;
      }
      tiles[idx.row, idx.col] := Revealed;
      ghost var vc := View();
      assert Marked(vb, vc, rows, cols, idx, Revealed);
      MarkAgrees(vb, vc, content, rows, cols, idx, Revealed);
      RevealOne(vb, vc, rows, cols, idx);
      assert FloodClosed(vb, vc, content, rows, cols);
      ClosedChain(va, vb, vc, content, rows, cols);
      MarkBounded(vb, vc, content, rows, cols, idx, Revealed, {idx});
      BoundedChain(va, vb, vc, content, rows, cols, {idx}, {idx});
    }

    /** left_click: ignored once the handlers are unbound. The first click
        generates the map around the clicked cell, starts the game, reveals
        the cell (a blank, so a flood) and starts the timer; a later click
        reveals the tile only if it is still covered. Either way the game
        ends when no safe tile is left to open. If generate_map raises, the
        exception leaves the handler before anything is assigned. */
    method LeftClick(p: Pos, shuffles: seq<seq<int>>) returns (outcome: ClickOutcome)
      requires Consistent() && OnBoard(p, rows, cols)
      requires forall i :: 0 <= i < |shuffles| ==>
        IsMarkerList(shuffles[i], mines, rows * cols - SizeOfStart(ClipBorder(p, rows, cols)))
      modifies this, tiles
      ensures (MarkerListsSized(p, rows, cols, mines, shuffles);
        old(inputBound) && !old(gameStart)
        && mines > 0 && rows * cols - mines - SizeOfStart(ClipBorder(p, rows, cols)) >= 0 ==>
        && (outcome == Handled <==> Draw(p, rows, cols, shuffles) == Kept(content))
        && (outcome == Escaped(IndexError) <==> Draw(p, rows, cols, shuffles) == WalkRaised)
        && (outcome == Exhausted <==> Draw(p, rows, cols, shuffles) == NoDrawLeft))
      ensures Consistent()
      ensures timeElapsed == old(timeElapsed)
      ensures old(gameStart) ==> gameStart && content == old(content) && bombCoor == old(bombCoor)
      ensures !old(inputBound) ==> outcome == Handled && unchanged(this) && unchanged(tiles)
      ensures outcome != Handled ==> old(inputBound) && !old(gameStart) && unchanged(this) && unchanged(tiles)
      ensures outcome == Escaped(ValueError) <==>
        old(inputBound) && !old(gameStart)
        && (mines < 0 || rows * cols - mines - SizeOfStart(ClipBorder(p, rows, cols)) < 0
            || (mines == 0 && |shuffles| > 0))
      ensures old(inputBound) && !old(gameStart) && outcome == Handled ==>
        && gameStart && firstClick == p && ValidMap(content, rows, cols, mines, p)
        && (old(tiles[p.row, p.col]) == Covered ==> tiles[p.row, p.col] == Revealed)
      ensures old(inputBound) && old(gameStart) && old(tiles[p.row, p.col]) != Covered ==>
        unchanged(this) && unchanged(tiles)
      ensures old(inputBound) && old(gameStart) && old(tiles[p.row, p.col]) == Covered ==>
        (content[p.row][p.col] == MINE <==> message == Lost)
      ensures old(inputBound) && outcome == Handled ==>
        (message == Won(timeElapsed) <==> safeTileCount == 0) && (inputBound <==> message == NoMessage)
      ensures old(inputBound) && !old(gameStart) && outcome == Handled ==>
        && SafeOpened(old(View()), View(), content, rows, cols, p)
        && safeTileCount == rows * cols - mines - |Uncovered(old(View()), View(), rows, cols)|
        && silentReveals == |Unflagged(old(View()), View(), rows, cols)|
      ensures old(inputBound) && old(gameStart) && old(tiles[p.row, p.col]) == Covered && content[p.row][p.col] != MINE ==>
        && SafeOpened(old(View()), View(), content, rows, cols, p)
        && safeTileCount == old(safeTileCount) - |Uncovered(old(View()), View(), rows, cols)|
        && silentReveals == old(silentReveals) + |Unflagged(old(View()), View(), rows, cols)|
      ensures old(inputBound) && old(gameStart) && old(tiles[p.row, p.col]) == Covered && content[p.row][p.col] == MINE ==>
        MineHit(old(View()), View(), content, rows, cols, p, true) && silentReveals == old(silentReveals)
    {
      if !inputBound {
        return Handled;
      }
      if !gameStart {
        outcome := FirstClick(p, shuffles);
      } else {
        LaterClick(p);
        outcome := Handled;
      }
    }

    /** left_click before the game has started. */
    method FirstClick(p: Pos, shuffles: seq<seq<int>>) returns (outcome: ClickOutcome)
      requires Consistent() && !gameStart && OnBoard(p, rows, cols)
      requires forall i :: 0 <= i < |shuffles| ==>
        IsMarkerList(shuffles[i], mines, rows * cols - SizeOfStart(ClipBorder(p, rows, cols)))
      modifies this, tiles
      ensures Consistent()
      ensures timeElapsed == old(timeElapsed)
      ensures outcome != Handled ==> unchanged(this) && unchanged(tiles)
      ensures outcome == Escaped(ValueError) <==>
        mines < 0 || rows * cols - mines - SizeOfStart(ClipBorder(p, rows, cols)) < 0
        || (mines == 0 && |shuffles| > 0)
      ensures outcome == Handled ==>
        && gameStart && firstClick == p && ValidMap(content, rows, cols, mines, p)
        && (message == Won(timeElapsed) <==> safeTileCount == 0) && (inputBound <==> message == NoMessage)
      ensures outcome == Handled ==>
        && SafeOpened(old(View()), View(), content, rows, cols, p)
        && safeTileCount == rows * cols - mines - |Uncovered(old(View()), View(), rows, cols)|
        && silentReveals == |Unflagged(old(View()), View(), rows, cols)|
      ensures (MarkerListsSized(p, rows, cols, mines, shuffles);
        mines > 0 && rows * cols - mines - SizeOfStart(ClipBorder(p, rows, cols)) >= 0 ==>
        && (outcome == Handled <==> Draw(p, rows, cols, shuffles) == Kept(content))
        && (outcome == Escaped(IndexError) <==> Draw(p, rows, cols, shuffles) == WalkRaised)
        && (outcome == Exhausted <==> Draw(p, rows, cols, shuffles) == NoDrawLeft))
    {
      var res := GenerateMap(p, rows, cols, mines, shuffles);
      if res.Raised? {
        return Escaped(res.error);
      }
      if res.OutOfShuffles? {
        return Exhausted;
      }
      var grid := Freeze(res.board);
      Begin(p, grid, res.coor);
      outcome := Handled;
    }

    /** The first click once generate_map has returned a map: the map is
        read and the game started on it. */
    method Begin(p: Pos, grid: seq<seq<int>>, coor: seq<Pos>)
      requires Consistent() && !gameStart && OnBoard(p, rows, cols) && mines > 0
      requires IsGrid(grid, rows, cols) && ValidMap(grid, rows, cols, mines, p)
      requires ListsMines(coor, grid, rows, cols) && |coor| == mines
      modifies this, tiles
      ensures Consistent()
      ensures timeElapsed == old(timeElapsed)
      ensures gameStart && firstClick == p && ValidMap(content, rows, cols, mines, p)
      ensures content == grid
      ensures (message == Won(timeElapsed) <==> safeTileCount == 0) && (inputBound <==> message == NoMessage)
      ensures SafeOpened(old(View()), View(), content, rows, cols, p)
      ensures safeTileCount == rows * cols - mines - |Uncovered(old(View()), View(), rows, cols)|
      ensures silentReveals == |Unflagged(old(View()), View(), rows, cols)|
    {
      ValidMapIsPlayable(grid, coor, rows, cols, mines, p);
      StartGame(p, grid, coor);
    }

    /** left_click once the game has started: a covered tile is revealed. */
    method LaterClick(p: Pos)
      requires Consistent() && gameStart && inputBound && OnBoard(p, rows, cols)
      modifies this`safeTileCount, this`inputBound, this`timerRunning, this`message, this`silentReveals, tiles
      ensures Consistent()
      ensures old(tiles[p.row, p.col]) != Covered ==> unchanged(this) && unchanged(tiles)
      ensures old(tiles[p.row, p.col]) == Covered ==> (content[p.row][p.col] == MINE <==> message == Lost)
      ensures (message == Won(timeElapsed) <==> safeTileCount == 0) && (inputBound <==> message == NoMessage)
      ensures old(tiles[p.row, p.col]) == Covered && content[p.row][p.col] != MINE ==>
        && SafeOpened(old(View()), View(), content, rows, cols, p)
        && safeTileCount == old(safeTileCount) - |Uncovered(old(View()), View(), rows, cols)|
        && silentReveals == old(silentReveals) + |Unflagged(old(View()), View(), rows, cols)|
      ensures old(tiles[p.row, p.col]) == Covered && content[p.row][p.col] == MINE ==>
        MineHit(old(View()), View(), content, rows, cols, p, true) && silentReveals == old(silentReveals)
    {
      if tiles[p.row, p.col] == Covered {
        OpenTile(p);
        CheckCleared();
      }
    }

    /** The tail of left_click: the game ends, won, once no safe tile is left
        to open. */
    method CheckCleared()
      requires Accounted() && gameStart && timerRunning == inputBound
      modifies this`inputBound, this`timerRunning, this`message, tiles
      ensures Consistent()
      ensures old(safeTileCount) == 0 ==> !inputBound && !timerRunning && message == Won(timeElapsed) && unchanged(tiles)
      ensures old(safeTileCount) != 0 ==> unchanged(this) && unchanged(tiles)
    {
      if safeTileCount == 0 {
        GameEnd();
      }
    }

    /** The first click's branch of left_click once generate_map has returned:
        store the map and its mine list, start the game, reveal the clicked
        cell and start the timer; then the tail of left_click. */
    method StartGame(p: Pos, grid: seq<seq<int>>, coor: seq<Pos>)
      requires Accounted() && !gameStart && OnBoard(p, rows, cols)
      requires PlayableMap(grid, coor, rows, cols) && grid[p.row][p.col] == 0
      requires |MineSet(grid, rows, cols)| == mines && |coor| == mines
      modifies this`content, this`bombCoor, this`gameStart, this`firstClick, this`silentReveals,
        this`timerRunning, this`safeTileCount, this`inputBound, this`message, tiles
      ensures gameStart && firstClick == p && content == grid && bombCoor == coor
      ensures Consistent()
      ensures (message == Won(timeElapsed) <==> safeTileCount == 0) && (inputBound <==> message == NoMessage)
      ensures
        && SafeOpened(old(View()), View(), content, rows, cols, p)
        && safeTileCount == old(safeTileCount) - |Uncovered(old(View()), View(), rows, cols)|
        && silentReveals == old(silentReveals) + |Unflagged(old(View()), View(), rows, cols)|
    {
      Install(p, grid, coor);
      OpenFirst(p);
    }

    /** The rest of the first click once the map is stored: reveal the
        clicked cell (a blank, so no mine), start the timer, then the tail of
        left_click. */
    method OpenFirst(p: Pos)
      requires Accounted() && gameStart && inputBound && OnBoard(p, rows, cols)
      requires content[p.row][p.col] == 0
      modifies this`timerRunning, this`safeTileCount, this`inputBound, this`message, this`silentReveals, tiles
      ensures Consistent()
      ensures (message == Won(timeElapsed) <==> safeTileCount == 0) && (inputBound <==> message == NoMessage)
      ensures
        && SafeOpened(old(View()), View(), content, rows, cols, p)
        && safeTileCount == old(safeTileCount) - |Uncovered(old(View()), View(), rows, cols)|
        && silentReveals == old(silentReveals) + |Unflagged(old(View()), View(), rows, cols)|
    {
      OpenTile(p);
      StartClock();
    }

    /** The end of the first click: the timer is scheduled, then the tail of
        left_click ends the game, won, if nothing is left to open. */
    method StartClock()
      requires Accounted() && gameStart && inputBound
      modifies this`timerRunning, this`inputBound, this`message, tiles
      ensures Consistent() && unchanged(tiles)
      ensures (message == Won(timeElapsed) <==> safeTileCount == 0) && (inputBound <==> message == NoMessage)
    {
      timerRunning := true;
      CheckCleared();
    }

    /** The assignments of the first click: the generated map and its mine
        list are stored and the game counts as started. Every safe tile is
        still unopened, so safe_tile_count counts exactly those. */
    method Install(p: Pos, grid: seq<seq<int>>, coor: seq<Pos>)
      requires Accounted() && !gameStart
      requires PlayableMap(grid, coor, rows, cols)
      requires |MineSet(grid, rows, cols)| == mines && |coor| == mines
      modifies this`content, this`bombCoor, this`gameStart, this`firstClick
      ensures Accounted() && gameStart && firstClick == p && content == grid && bombCoor == coor
    {
      content, bombCoor := grid, coor;
      gameStart := true;
      firstClick := p;
      UntouchedAgrees(View(), grid, rows, cols);
      InitialSafe(View(), grid, rows, cols);
    }

    /** reveal_map on a clicked cell of a game that takes clicks, with the
        bookkeeping kept. */
    method OpenTile(p: Pos)
      requires Accounted() && gameStart && inputBound && OnBoard(p, rows, cols)
      modifies this`safeTileCount, this`inputBound, this`timerRunning, this`message, this`silentReveals, tiles
      ensures Accounted()
      ensures old(tiles[p.row, p.col]) != Covered ==> unchanged(this) && unchanged(tiles)
      ensures old(tiles[p.row, p.col]) == Covered && content[p.row][p.col] == MINE ==>
        && !inputBound && !timerRunning && safeTileCount == old(safeTileCount)
        && message == (if safeTileCount == 0 then Won(timeElapsed) else Lost)
      ensures old(tiles[p.row, p.col]) == Covered ==> tiles[p.row, p.col] != Covered
      ensures content[p.row][p.col] != MINE ==>
        inputBound && timerRunning == old(timerRunning) && message == NoMessage
        && SafeOpened(old(View()), View(), content, rows, cols, p)
        && safeTileCount == old(safeTileCount) - |Uncovered(old(View()), View(), rows, cols)|
        && silentReveals == old(silentReveals) + |Unflagged(old(View()), View(), rows, cols)|
      ensures old(tiles[p.row, p.col]) == Covered && content[p.row][p.col] == MINE ==>
        MineHit(old(View()), View(), content, rows, cols, p, safeTileCount != 0)
        && silentReveals == old(silentReveals)
    {
      RevealCounted(p);
    }

    /** reveal_map on a clicked cell, with the flagged tiles its flood opens
        without counting noted: safe_tile_count stays the number of unopened
        safe tiles plus the silently opened ones. */
    method RevealCounted(p: Pos)
      requires MapValid() && TilesAgree() && OnBoard(p, rows, cols)
      requires safeTileCount == |UnrevealedSafe(View(), content, rows, cols)| + silentReveals
      modifies this`safeTileCount, this`inputBound, this`timerRunning, this`message, this`silentReveals, tiles
      ensures MapValid() && TilesAgree()
      ensures safeTileCount == |UnrevealedSafe(View(), content, rows, cols)| + silentReveals
      ensures old(tiles[p.row, p.col]) != Covered ==> unchanged(this) && unchanged(tiles)
      ensures old(tiles[p.row, p.col]) == Covered && content[p.row][p.col] == MINE ==>
        && !inputBound && !timerRunning && safeTileCount == old(safeTileCount)
        && message == (if safeTileCount == 0 then Won(timeElapsed) else Lost)
      ensures old(tiles[p.row, p.col]) == Covered ==> tiles[p.row, p.col] != Covered
      ensures content[p.row][p.col] != MINE ==>
        inputBound == old(inputBound) && timerRunning == old(timerRunning) && message == old(message)
        && SafeOpened(old(View()), View(), content, rows, cols, p)
        && safeTileCount == old(safeTileCount) - |Uncovered(old(View()), View(), rows, cols)|
        && silentReveals == old(silentReveals) + |Unflagged(old(View()), View(), rows, cols)|
      ensures old(tiles[p.row, p.col]) == Covered && content[p.row][p.col] == MINE ==>
        MineHit(old(View()), View(), content, rows, cols, p, safeTileCount != 0)
        && silentReveals == old(silentReveals)
    {
      ghost var v0 := View();
      RevealMap(p);
      if old(tiles[p.row, p.col]) != Covered {
        assert Unflagged(v0, View(), rows, cols) == {};
        NothingChanged(v0, content, rows, cols, {p});
      } else if content[p.row][p.col] != MINE {
        ghost var flagged := SafeAccounting(v0, View(), content, rows, cols);
        silentReveals := silentReveals + flagged;
      } else {
        SafeAfterMine(v0, View(), content, rows, cols, p, safeTileCount != 0);
      }
    }
  }
}
