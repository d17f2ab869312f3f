/** What the player sees: the image each tile label shows, and the sets of
    cells the game's bookkeeping counts. A view is a grid of tiles with the
    same shape as the content grid. */
module Views {
  import opened Board

  /** The image of a tile label: `tile_covered`, `tile_flag`, a number tile
      (`number_tile[n]`, the count being the content grid's), `bomb_explode`
      and `bomb_reveal`. */
  datatype Tile = Covered | Flag | Revealed | Exploded | BombShown

  /** What right_click does to an image. */
  function Toggle(t: Tile): Tile {
    match t
    case Covered => Flag
    case Flag => Covered
    case _ => t
  }

  /** Right-clicking twice puts every tile back as it was, and a right click
      never touches a revealed or bomb image. */
  lemma ToggleTwice(t: Tile)
    ensures Toggle(Toggle(t)) == t
    ensures (t == Covered || t == Flag) <==> Toggle(t) != t
  {
  }

  /** v1 arises from v0 by revealing covered or flagged tiles, nothing else. */
  predicate Grown(v0: seq<seq<Tile>>, v1: seq<seq<Tile>>, rows: nat, cols: nat)
    requires IsGrid(v0, rows, cols) && IsGrid(v1, rows, cols)
  {
    forall r, c :: 0 <= r < rows && 0 <= c < cols ==>
      v1[r][c] == v0[r][c] || ((v0[r][c] == Covered || v0[r][c] == Flag) && v1[r][c] == Revealed)
  }

  function CoveredCells(v: seq<seq<Tile>>, rows: nat, cols: nat): set<Pos>
    requires IsGrid(v, rows, cols)
  {
    set r, c | 0 <= r < rows && 0 <= c < cols && v[r][c] == Covered :: Pos(r, c)
  }

  /** The cells that went from covered to revealed. */
  function Uncovered(v0: seq<seq<Tile>>, v1: seq<seq<Tile>>, rows: nat, cols: nat): set<Pos>
    requires IsGrid(v0, rows, cols) && IsGrid(v1, rows, cols)
  {
    set r, c | 0 <= r < rows && 0 <= c < cols && v0[r][c] == Covered && v1[r][c] == Revealed :: Pos(r, c)
  }

  /** The cells that went from flagged to revealed. */
  function Unflagged(v0: seq<seq<Tile>>, v1: seq<seq<Tile>>, rows: nat, cols: nat): set<Pos>
    requires IsGrid(v0, rows, cols) && IsGrid(v1, rows, cols)
  {
    set r, c | 0 <= r < rows && 0 <= c < cols && v0[r][c] == Flag && v1[r][c] == Revealed :: Pos(r, c)
  }

  /** Every blank cell that the step uncovered has its whole block revealed:
      the flood fill leaves no hole next to an opened blank. */
  predicate FloodClosed(v0: seq<seq<Tile>>, v1: seq<seq<Tile>>, g: seq<seq<int>>, rows: nat, cols: nat)
    requires IsGrid(v0, rows, cols) && IsGrid(v1, rows, cols) && IsGrid(g, rows, cols)
  {
    forall q, n :: q in Uncovered(v0, v1, rows, cols) && g[q.row][q.col] == 0 && n in Block(q, rows, cols) ==>
      v1[n.row][n.col] == Revealed
  }

  /** The cells whose image differs between two views. */
  function Changed(v0: seq<seq<Tile>>, v1: seq<seq<Tile>>, rows: nat, cols: nat): set<Pos>
    requires IsGrid(v0, rows, cols) && IsGrid(v1, rows, cols)
  {
    set r, c | 0 <= r < rows && 0 <= c < cols && v1[r][c] != v0[r][c] :: Pos(r, c)
  }

  /** S holds the whole block of every blank in it that v still shows
      covered: a flood that enters S can never leave it. */
  ghost predicate FloodShut(S: set<Pos>, v: seq<seq<Tile>>, g: seq<seq<int>>, rows: nat, cols: nat)
    requires IsGrid(v, rows, cols) && IsGrid(g, rows, cols)
  {
    forall q :: q in S && OnBoard(q, rows, cols) && g[q.row][q.col] == 0 && v[q.row][q.col] == Covered ==>
      Block(q, rows, cols) <= S
  }

  /** v1 changes v0 only inside every flood-shut set holding the seeds, that
      is, only where a flood started at the seeds can reach. */
  ghost predicate FloodBounded(v0: seq<seq<Tile>>, v1: seq<seq<Tile>>, g: seq<seq<int>>, rows: nat, cols: nat,
                               seeds: set<Pos>)
    requires IsGrid(v0, rows, cols) && IsGrid(v1, rows, cols) && IsGrid(g, rows, cols)
  {
    forall S :: seeds <= S && FloodShut(S, v0, g, rows, cols) ==> Changed(v0, v1, rows, cols) <= S
  }

  /** What reveal_map does to the view when it is called on a safe cell p:
      only covered or flagged tiles open, p opens if it was covered and
      nothing changes if it was not, every blank it uncovered has its block
      open, and nothing opens beyond the flood from p. */
  ghost predicate SafeOpened(v0: seq<seq<Tile>>, v1: seq<seq<Tile>>, g: seq<seq<int>>, rows: nat, cols: nat, p: Pos)
    requires IsGrid(v0, rows, cols) && IsGrid(v1, rows, cols) && IsGrid(g, rows, cols) && OnBoard(p, rows, cols)
  {
    && Grown(v0, v1, rows, cols)
    && FloodClosed(v0, v1, g, rows, cols)
    && FloodBounded(v0, v1, g, rows, cols, {p})
    && (v0[p.row][p.col] == Covered ==> v1[p.row][p.col] == Revealed)
    && (v0[p.row][p.col] != Covered ==> Changed(v0, v1, rows, cols) == {})
  }

  /** reveal_map called on a tile that is not covered (a flag, say) leaves
      the whole view as it was. */
  lemma UncoveredClickChangesNothing(v0: seq<seq<Tile>>, v1: seq<seq<Tile>>, g: seq<seq<int>>, rows: nat, cols: nat, p: Pos)
    requires IsGrid(v0, rows, cols) && IsGrid(v1, rows, cols) && IsGrid(g, rows, cols) && OnBoard(p, rows, cols)
    requires SafeOpened(v0, v1, g, rows, cols, p) && v0[p.row][p.col] != Covered
    ensures v1 == v0
  {
    forall r | 0 <= r < rows ensures v1[r] == v0[r] {
      forall c | 0 <= c < cols ensures v1[r][c] == v0[r][c] {
        assert Pos(r, c) !in Changed(v0, v1, rows, cols);
      }
    }
  }

  /** A view that did not change stays within any bound. */
  lemma NothingChanged(v: seq<seq<Tile>>, g: seq<seq<int>>, rows: nat, cols: nat, seeds: set<Pos>)
    requires IsGrid(v, rows, cols) && IsGrid(g, rows, cols)
    ensures Changed(v, v, rows, cols) == {}
    ensures FloodBounded(v, v, g, rows, cols, seeds)
  {
    assert Changed(v, v, rows, cols) == {};
  }

  /** Changing one seed tile stays within the bound. */
  lemma MarkBounded(v0: seq<seq<Tile>>, v1: seq<seq<Tile>>, g: seq<seq<int>>, rows: nat, cols: nat,
                    q: Pos, t: Tile, seeds: set<Pos>)
    requires IsGrid(v0, rows, cols) && IsGrid(v1, rows, cols) && IsGrid(g, rows, cols)
    requires Marked(v0, v1, rows, cols, q, t) && q in seeds
    ensures Changed(v0, v1, rows, cols) <= {q}
    ensures FloodBounded(v0, v1, g, rows, cols, seeds)
  {
  }

  /** Opening tiles keeps a set flood-shut: fewer tiles are still covered. */
  lemma ShutAfterGrowth(S: set<Pos>, v0: seq<seq<Tile>>, v1: seq<seq<Tile>>, g: seq<seq<int>>, rows: nat, cols: nat)
    requires IsGrid(v0, rows, cols) && IsGrid(v1, rows, cols) && IsGrid(g, rows, cols)
    requires Grown(v0, v1, rows, cols) && FloodShut(S, v0, g, rows, cols)
    ensures FloodShut(S, v1, g, rows, cols)
  {
  }

  /** Two bounded steps, the second from seeds among the first's, make a
      bounded step. */
  lemma BoundedChain(v0: seq<seq<Tile>>, v1: seq<seq<Tile>>, v2: seq<seq<Tile>>, g: seq<seq<int>>,
                     rows: nat, cols: nat, seeds: set<Pos>, later: set<Pos>)
    requires IsGrid(v0, rows, cols) && IsGrid(v1, rows, cols) && IsGrid(v2, rows, cols) && IsGrid(g, rows, cols)
    requires Grown(v0, v1, rows, cols) && later <= seeds
    requires FloodBounded(v0, v1, g, rows, cols, seeds) && FloodBounded(v1, v2, g, rows, cols, later)
    ensures FloodBounded(v0, v2, g, rows, cols, seeds)
  {
    forall S | seeds <= S && FloodShut(S, v0, g, rows, cols)
      ensures Changed(v0, v2, rows, cols) <= S
    {
      ShutAfterGrowth(S, v0, v1, g, rows, cols);
      assert Changed(v0, v2, rows, cols) <= Changed(v0, v1, rows, cols) + Changed(v1, v2, rows, cols);
    }
  }

  /** Opening a covered blank q and then, within bounds, its block stays
      within the flood from q. */
  lemma BoundedAroundBlank(v0: seq<seq<Tile>>, v1: seq<seq<Tile>>, v2: seq<seq<Tile>>, g: seq<seq<int>>,
                           rows: nat, cols: nat, q: Pos)
    requires IsGrid(v0, rows, cols) && IsGrid(v1, rows, cols) && IsGrid(v2, rows, cols) && IsGrid(g, rows, cols)
    requires OnBoard(q, rows, cols) && g[q.row][q.col] == 0 && v0[q.row][q.col] == Covered
    requires Marked(v0, v1, rows, cols, q, Revealed)
    requires FloodBounded(v1, v2, g, rows, cols, Block(q, rows, cols))
    ensures FloodBounded(v0, v2, g, rows, cols, {q})
  {
    forall S | {q} <= S && FloodShut(S, v0, g, rows, cols)
      ensures Changed(v0, v2, rows, cols) <= S
    {
      assert q in S;
      ShutAfterGrowth(S, v0, v1, g, rows, cols);
      assert Changed(v0, v2, rows, cols) <= Changed(v0, v1, rows, cols) + Changed(v1, v2, rows, cols);
    }
  }

  /** A row of the clipped block around a blank holds no mine. */
  lemma BlockRowIsSafe(g: seq<seq<int>>, rows: nat, cols: nat, q: Pos, row: int)
    requires IsGrid(g, rows, cols) && BlanksIsolated(g, rows, cols)
    requires OnBoard(q, rows, cols) && g[q.row][q.col] == 0
    requires ClipLow(q.row) <= row < ClipHigh(q.row, rows)
    ensures 0 <= row < rows && 0 <= ClipLow(q.col) <= ClipHigh(q.col, cols) <= cols
    ensures forall c :: ClipLow(q.col) <= c < ClipHigh(q.col, cols) ==> g[row][c] != MINE
  {
    BlockIsClippedSlice(q, rows, cols);
    forall c | ClipLow(q.col) <= c < ClipHigh(q.col, cols)
      ensures g[row][c] != MINE
    {
      assert Pos(row, c) in Block(q, rows, cols);
    }
  }

  /** A view whose clipped slice around q is all revealed has the whole block
      of q revealed. */
  lemma RectRevealed(v: seq<seq<Tile>>, rows: nat, cols: nat, q: Pos)
    requires IsGrid(v, rows, cols) && OnBoard(q, rows, cols)
    requires forall r, c :: ClipLow(q.row) <= r < ClipHigh(q.row, rows) && ClipLow(q.col) <= c < ClipHigh(q.col, cols) ==>
      v[r][c] == Revealed
    ensures forall n :: n in Block(q, rows, cols) ==> v[n.row][n.col] == Revealed
  {
    BlockIsClippedSlice(q, rows, cols);
  }

  /** Growing a view keeps a revealed row prefix revealed, and extends it by
      one more revealed cell. */
  lemma RowPrefixStep(v0: seq<seq<Tile>>, v1: seq<seq<Tile>>, rows: nat, cols: nat, row: int, c0: int, c: int)
    requires IsGrid(v0, rows, cols) && IsGrid(v1, rows, cols) && Grown(v0, v1, rows, cols)
    requires 0 <= row < rows && 0 <= c0 <= c < cols
    requires forall k :: c0 <= k < c ==> v0[row][k] == Revealed
    requires v1[row][c] == Revealed
    ensures forall k :: c0 <= k < c + 1 ==> v1[row][k] == Revealed
  {
  }

  /** The same for the rows of a slice: once a whole row is revealed, the
      revealed rows of the slice extend by one. */
  lemma RectPrefixStep(v0: seq<seq<Tile>>, v1: seq<seq<Tile>>, rows: nat, cols: nat,
                       r0: int, row: int, c0: int, c1: int)
    requires IsGrid(v0, rows, cols) && IsGrid(v1, rows, cols) && Grown(v0, v1, rows, cols)
    requires 0 <= r0 <= row < rows && 0 <= c0 <= c1 <= cols
    requires forall r, c :: r0 <= r < row && c0 <= c < c1 ==> v0[r][c] == Revealed
    requires forall c :: c0 <= c < c1 ==> v1[row][c] == Revealed
    ensures forall r, c :: r0 <= r < row + 1 && c0 <= c < c1 ==> v1[r][c] == Revealed
  {
  }

  /** Closure composes: what one step closed stays closed under the next. */
  lemma ClosedChain(v0: seq<seq<Tile>>, v1: seq<seq<Tile>>, v2: seq<seq<Tile>>, g: seq<seq<int>>, rows: nat, cols: nat)
    requires IsGrid(v0, rows, cols) && IsGrid(v1, rows, cols) && IsGrid(v2, rows, cols) && IsGrid(g, rows, cols)
    requires Grown(v0, v1, rows, cols) && Grown(v1, v2, rows, cols)
    requires FloodClosed(v0, v1, g, rows, cols) && FloodClosed(v1, v2, g, rows, cols)
    ensures Grown(v0, v2, rows, cols) && FloodClosed(v0, v2, g, rows, cols)
    ensures |Uncovered(v0, v2, rows, cols)| == |Uncovered(v0, v1, rows, cols)| + |Uncovered(v1, v2, rows, cols)|
  {
    UncoveredSplit(v0, v1, v2, rows, cols);
  }

  /** Opening a covered blank q (v0 to v1) and then, closed, its whole block
      (v1 to v2) leaves a closed flood. */
  lemma ClosedAroundBlank(v0: seq<seq<Tile>>, v1: seq<seq<Tile>>, v2: seq<seq<Tile>>, g: seq<seq<int>>,
                          rows: nat, cols: nat, q: Pos)
    requires IsGrid(v0, rows, cols) && IsGrid(v1, rows, cols) && IsGrid(v2, rows, cols) && IsGrid(g, rows, cols)
    requires OnBoard(q, rows, cols) && v0[q.row][q.col] == Covered
    requires Grown(v0, v1, rows, cols) && Uncovered(v0, v1, rows, cols) == {q}
    requires Grown(v1, v2, rows, cols) && FloodClosed(v1, v2, g, rows, cols)
    requires forall n :: n in Block(q, rows, cols) ==> v2[n.row][n.col] == Revealed
    ensures Grown(v0, v2, rows, cols) && FloodClosed(v0, v2, g, rows, cols)
    ensures |Uncovered(v0, v2, rows, cols)| == |Uncovered(v0, v1, rows, cols)| + |Uncovered(v1, v2, rows, cols)|
  {
    UncoveredSplit(v0, v1, v2, rows, cols);
  }

  /** The safe cells the player has not opened yet. */
  function UnrevealedSafe(v: seq<seq<Tile>>, g: seq<seq<int>>, rows: nat, cols: nat): set<Pos>
    requires IsGrid(v, rows, cols) && IsGrid(g, rows, cols)
  {
    set r, c | 0 <= r < rows && 0 <= c < cols && g[r][c] != MINE && v[r][c] != Revealed :: Pos(r, c)
  }

  /** No unopened safe tile is left exactly when every safe cell shows its
      number. */
  lemma NoneUnrevealed(v: seq<seq<Tile>>, g: seq<seq<int>>, rows: nat, cols: nat)
    requires IsGrid(v, rows, cols) && IsGrid(g, rows, cols)
    ensures |UnrevealedSafe(v, g, rows, cols)| == 0 <==>
      forall r, c :: 0 <= r < rows && 0 <= c < cols && g[r][c] != MINE ==> v[r][c] == Revealed
  {
    if |UnrevealedSafe(v, g, rows, cols)| == 0 {
      assert UnrevealedSafe(v, g, rows, cols) == {};
      forall r, c | 0 <= r < rows && 0 <= c < cols && g[r][c] != MINE ensures v[r][c] == Revealed {
        assert Pos(r, c) !in UnrevealedSafe(v, g, rows, cols);
      }
    } else {
      var q :| q in UnrevealedSafe(v, g, rows, cols);
      assert g[q.row][q.col] != MINE && v[q.row][q.col] != Revealed;
    }
  }

  /** The cells uncovered over two steps are those of the first step plus
      those of the second, which are different cells. */
  lemma UncoveredSplit(v0: seq<seq<Tile>>, v1: seq<seq<Tile>>, v2: seq<seq<Tile>>, rows: nat, cols: nat)
    requires IsGrid(v0, rows, cols) && IsGrid(v1, rows, cols) && IsGrid(v2, rows, cols)
    requires Grown(v0, v1, rows, cols) && Grown(v1, v2, rows, cols)
    ensures Uncovered(v0, v2, rows, cols) == Uncovered(v0, v1, rows, cols) + Uncovered(v1, v2, rows, cols)
    ensures |Uncovered(v0, v2, rows, cols)| == |Uncovered(v0, v1, rows, cols)| + |Uncovered(v1, v2, rows, cols)|
  {
    var a, b := Uncovered(v0, v1, rows, cols), Uncovered(v1, v2, rows, cols);
    assert Uncovered(v0, v2, rows, cols) == a + b;
    assert a * b == {};
  }

  /** v1 is v0 with the tile at q set to t. */
  predicate Marked(v0: seq<seq<Tile>>, v1: seq<seq<Tile>>, rows: nat, cols: nat, q: Pos, t: Tile)
    requires IsGrid(v0, rows, cols) && IsGrid(v1, rows, cols)
  {
    forall r, c :: 0 <= r < rows && 0 <= c < cols ==>
      v1[r][c] == if Pos(r, c) == q then t else v0[r][c]
  }

  /** Before the first click no tile is open: each is covered or flagged. */
  predicate Untouched(v: seq<seq<Tile>>, rows: nat, cols: nat)
    requires IsGrid(v, rows, cols)
  {
    forall r, c :: 0 <= r < rows && 0 <= c < cols ==> v[r][c] == Covered || v[r][c] == Flag
  }

  /** Number images sit only on safe cells and bomb images only on mines. */
  predicate Agrees(v: seq<seq<Tile>>, g: seq<seq<int>>, rows: nat, cols: nat)
    requires IsGrid(v, rows, cols) && IsGrid(g, rows, cols)
  {
    forall r, c :: 0 <= r < rows && 0 <= c < cols ==>
      && (v[r][c] == Revealed ==> g[r][c] != MINE)
      && (v[r][c] == Exploded || v[r][c] == BombShown ==> g[r][c] == MINE)
  }

  /** game_end's loss display over a list of cells: each listed cell whose
      bomb has not exploded shows its bomb, every other tile is as before. */
  predicate BombsShownAt(v0: seq<seq<Tile>>, v1: seq<seq<Tile>>, rows: nat, cols: nat, s: seq<Pos>)
    requires IsGrid(v0, rows, cols) && IsGrid(v1, rows, cols)
  {
    forall r, c :: 0 <= r < rows && 0 <= c < cols ==>
      v1[r][c] == if Pos(r, c) in s && v0[r][c] != Exploded then BombShown else v0[r][c]
  }

  /** The loss display over the whole board: every mine that did not explode
      shows its bomb. */
  predicate BombsShown(v0: seq<seq<Tile>>, v1: seq<seq<Tile>>, g: seq<seq<int>>, rows: nat, cols: nat)
    requires IsGrid(v0, rows, cols) && IsGrid(v1, rows, cols) && IsGrid(g, rows, cols)
  {
    forall r, c :: 0 <= r < rows && 0 <= c < cols ==>
      v1[r][c] == if g[r][c] == MINE && v0[r][c] != Exploded then BombShown else v0[r][c]
  }

  /** Clicking a mine: the mine explodes and, when `shown`, every other mine
      shows its bomb. */
  predicate MineHit(v0: seq<seq<Tile>>, v1: seq<seq<Tile>>, g: seq<seq<int>>, rows: nat, cols: nat,
                    q: Pos, shown: bool)
    requires IsGrid(v0, rows, cols) && IsGrid(v1, rows, cols) && IsGrid(g, rows, cols)
  {
    forall r, c :: 0 <= r < rows && 0 <= c < cols ==>
      v1[r][c] == if Pos(r, c) == q then Exploded
                  else if shown && g[r][c] == MINE && v0[r][c] != Exploded then BombShown
                  else v0[r][c]
  }

  lemma UntouchedAgrees(v: seq<seq<Tile>>, g: seq<seq<int>>, rows: nat, cols: nat)
    requires IsGrid(v, rows, cols) && IsGrid(g, rows, cols) && Untouched(v, rows, cols)
    ensures Agrees(v, g, rows, cols)
  {
  }

  /** Putting an image on a tile keeps the agreement when the image fits the
      cell: a number on a safe cell, a bomb on a mine, or a covered or flag
      image anywhere. */
  lemma MarkAgrees(v0: seq<seq<Tile>>, v1: seq<seq<Tile>>, g: seq<seq<int>>, rows: nat, cols: nat, q: Pos, t: Tile)
    requires IsGrid(v0, rows, cols) && IsGrid(v1, rows, cols) && IsGrid(g, rows, cols) && OnBoard(q, rows, cols)
    requires Agrees(v0, g, rows, cols) && Marked(v0, v1, rows, cols, q, t)
    requires t == Revealed ==> g[q.row][q.col] != MINE
    requires t == Exploded || t == BombShown ==> g[q.row][q.col] == MINE
    ensures Agrees(v1, g, rows, cols)
  {
  }

  /** Showing the bombs keeps the agreement. */
  lemma ShownAgrees(v0: seq<seq<Tile>>, v1: seq<seq<Tile>>, g: seq<seq<int>>, rows: nat, cols: nat)
    requires IsGrid(v0, rows, cols) && IsGrid(v1, rows, cols) && IsGrid(g, rows, cols)
    requires Agrees(v0, g, rows, cols) && BombsShown(v0, v1, g, rows, cols)
    ensures Agrees(v1, g, rows, cols)
  {
  }

  /** One pass of game_end's loop over the mine list: the next listed cell
      shows its bomb unless it exploded. */
  lemma ShowNext(v0: seq<seq<Tile>>, va: seq<seq<Tile>>, vb: seq<seq<Tile>>, rows: nat, cols: nat,
                 s: seq<Pos>, q: Pos)
    requires IsGrid(v0, rows, cols) && IsGrid(va, rows, cols) && IsGrid(vb, rows, cols) && OnBoard(q, rows, cols)
    requires BombsShownAt(v0, va, rows, cols, s) && q !in s
    requires va[q.row][q.col] != Exploded ==> Marked(va, vb, rows, cols, q, BombShown)
    requires va[q.row][q.col] == Exploded ==> vb == va
    ensures BombsShownAt(v0, vb, rows, cols, s + [q])
  {
  }

  /** After the whole mine list, every mine shows its bomb. */
  lemma ShownAll(v0: seq<seq<Tile>>, v1: seq<seq<Tile>>, g: seq<seq<int>>, rows: nat, cols: nat, s: seq<Pos>)
    requires IsGrid(v0, rows, cols) && IsGrid(v1, rows, cols) && IsGrid(g, rows, cols)
    requires forall i :: 0 <= i < |s| ==> OnBoard(s[i], rows, cols) && g[s[i].row][s[i].col] == MINE
    requires forall r, c :: 0 <= r < rows && 0 <= c < cols && g[r][c] == MINE ==> Pos(r, c) in s
    requires BombsShownAt(v0, v1, rows, cols, s)
    ensures BombsShown(v0, v1, g, rows, cols)
  {
    forall r, c | 0 <= r < rows && 0 <= c < cols
      ensures Pos(r, c) in s <==> g[r][c] == MINE
    {
      if Pos(r, c) in s {
        var i :| 0 <= i < |s| && s[i] == Pos(r, c);
      }
    }
  }

  /** A mine exploding, then (when `shown`) the bombs shown. */
  lemma ExplodeThenShow(v0: seq<seq<Tile>>, v1: seq<seq<Tile>>, v2: seq<seq<Tile>>, g: seq<seq<int>>,
                        rows: nat, cols: nat, q: Pos, shown: bool)
    requires IsGrid(v0, rows, cols) && IsGrid(v1, rows, cols) && IsGrid(v2, rows, cols) && IsGrid(g, rows, cols)
    requires OnBoard(q, rows, cols) && g[q.row][q.col] == MINE
    requires Marked(v0, v1, rows, cols, q, Exploded)
    requires shown ==> BombsShown(v1, v2, g, rows, cols)
    requires !shown ==> v2 == v1
    ensures MineHit(v0, v2, g, rows, cols, q, shown)
  {
  }

  /** Setting one tile to a number image: the view grows, and the cell counts
      as uncovered exactly when it was covered. */
  lemma RevealOne(v0: seq<seq<Tile>>, v1: seq<seq<Tile>>, rows: nat, cols: nat, q: Pos)
    requires IsGrid(v0, rows, cols) && IsGrid(v1, rows, cols) && OnBoard(q, rows, cols)
    requires v0[q.row][q.col] == Covered || v0[q.row][q.col] == Flag || v0[q.row][q.col] == Revealed
    requires Marked(v0, v1, rows, cols, q, Revealed)
    ensures Grown(v0, v1, rows, cols)
    ensures Uncovered(v0, v1, rows, cols) == if v0[q.row][q.col] == Covered then {q} else {}
  {
    var u := Uncovered(v0, v1, rows, cols);
    if v0[q.row][q.col] == Covered {
      assert q in u;
      assert u == {q};
    } else {
      assert u == {};
    }
  }

  /** Revealing never adds a covered cell, and revealing a covered one removes
      it: the measure the flood fill's recursion decreases. */
  lemma CoveredShrinks(v0: seq<seq<Tile>>, v1: seq<seq<Tile>>, rows: nat, cols: nat, q: Pos)
    requires IsGrid(v0, rows, cols) && IsGrid(v1, rows, cols) && Grown(v0, v1, rows, cols)
    requires OnBoard(q, rows, cols) && v0[q.row][q.col] == Covered && v1[q.row][q.col] == Revealed
    ensures |CoveredCells(v1, rows, cols)| < |CoveredCells(v0, rows, cols)|
  {
    var before, after := CoveredCells(v0, rows, cols), CoveredCells(v1, rows, cols);
    assert after <= before - {q};
    SubsetCard(after, before - {q});
  }

  /** Revealing never adds a covered cell. */
  lemma CoveredNeverGrows(v0: seq<seq<Tile>>, v1: seq<seq<Tile>>, rows: nat, cols: nat)
    requires IsGrid(v0, rows, cols) && IsGrid(v1, rows, cols) && Grown(v0, v1, rows, cols)
    ensures |CoveredCells(v1, rows, cols)| <= |CoveredCells(v0, rows, cols)|
  {
    SubsetCard(CoveredCells(v1, rows, cols), CoveredCells(v0, rows, cols));
  }

  /** Revealing safe cells shrinks the unopened safe cells by the uncovered
      ones and the unflagged ones; `unflagged` counts the latter. */
  lemma SafeAccounting(v0: seq<seq<Tile>>, v1: seq<seq<Tile>>, g: seq<seq<int>>, rows: nat, cols: nat)
    returns (unflagged: nat)
    requires IsGrid(v0, rows, cols) && IsGrid(v1, rows, cols) && IsGrid(g, rows, cols)
    requires Grown(v0, v1, rows, cols) && Agrees(v1, g, rows, cols)
    ensures unflagged == |Unflagged(v0, v1, rows, cols)|
    ensures |UnrevealedSafe(v0, g, rows, cols)|
         == |UnrevealedSafe(v1, g, rows, cols)| + |Uncovered(v0, v1, rows, cols)| + unflagged
  {
    var u0, u1 := UnrevealedSafe(v0, g, rows, cols), UnrevealedSafe(v1, g, rows, cols);
    var cr, fr := Uncovered(v0, v1, rows, cols), Unflagged(v0, v1, rows, cols);
    assert u0 == u1 + cr + fr;
    assert u1 * cr == {} && u1 * fr == {} && cr * fr == {};
    assert |u1 + cr| == |u1| + |cr|;
    unflagged := |fr|;
  }

  /** Right-clicking leaves the unopened safe cells alone. */
  lemma SafeAfterToggle(v0: seq<seq<Tile>>, v1: seq<seq<Tile>>, g: seq<seq<int>>, rows: nat, cols: nat, q: Pos)
    requires IsGrid(v0, rows, cols) && IsGrid(v1, rows, cols) && IsGrid(g, rows, cols) && OnBoard(q, rows, cols)
    requires Marked(v0, v1, rows, cols, q, Toggle(v0[q.row][q.col]))
    ensures UnrevealedSafe(v0, g, rows, cols) == UnrevealedSafe(v1, g, rows, cols)
  {
  }

  /** Hitting a mine opens no safe cell. */
  lemma SafeAfterMine(v0: seq<seq<Tile>>, v1: seq<seq<Tile>>, g: seq<seq<int>>, rows: nat, cols: nat,
                      q: Pos, shown: bool)
    requires IsGrid(v0, rows, cols) && IsGrid(v1, rows, cols) && IsGrid(g, rows, cols)
    requires OnBoard(q, rows, cols) && g[q.row][q.col] == MINE
    requires MineHit(v0, v1, g, rows, cols, q, shown)
    ensures UnrevealedSafe(v0, g, rows, cols) == UnrevealedSafe(v1, g, rows, cols)
  {
  }

  /** Before anything is opened, the unopened safe cells are all the cells but
      the mines: this is `safe_tile_count`'s starting value. */
  lemma InitialSafe(v: seq<seq<Tile>>, g: seq<seq<int>>, rows: nat, cols: nat)
    requires IsGrid(v, rows, cols) && IsGrid(g, rows, cols) && Untouched(v, rows, cols)
    ensures |UnrevealedSafe(v, g, rows, cols)| == rows * cols - |MineSet(g, rows, cols)|
  {
    var u, m := UnrevealedSafe(v, g, rows, cols), MineSet(g, rows, cols);
    assert Cells(rows, cols) == u + m;
    assert u * m == {};
    RectCard(0, rows, 0, cols);
  }
}
