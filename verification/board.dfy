/** Board geometry shared by the whole engine: cell positions, rectangular grids,
    the 3x3 block around a cell clipped to the board, and the mine set and
    neighbour counts of a content grid (where -1 marks a mine). */
module Board {

  /** A cell address as the engine indexes its numpy grids: (row, col). */
  datatype Pos = Pos(row: int, col: int)

  /** The sentinel a content grid holds in every mine cell. */
  const MINE: int := -1

  /** g has `rows` rows of `cols` entries each. */
  predicate IsGrid<T>(g: seq<seq<T>>, rows: nat, cols: nat) {
    |g| == rows && forall r :: 0 <= r < rows ==> |g[r]| == cols
  }

  predicate OnBoard(q: Pos, rows: int, cols: int) {
    0 <= q.row < rows && 0 <= q.col < cols
  }

  /** The cells of rows r0..r1-1 and columns c0..c1-1, as a numpy slice
      `[r0:r1, c0:c1]` addresses them. */
  function Rect(r0: int, r1: int, c0: int, c1: int): set<Pos> {
    set r, c | r0 <= r < r1 && c0 <= c < c1 :: Pos(r, c)
  }

  function Cells(rows: nat, cols: nat): set<Pos> {
    Rect(0, rows, 0, cols)
  }

  /** a lies in the 3x3 block centred on b. */
  predicate Near(a: Pos, b: Pos) {
    -1 <= a.row - b.row <= 1 && -1 <= a.col - b.col <= 1
  }

  /** The 3x3 block around q, clipped to the board (q itself included). */
  function Block(q: Pos, rows: nat, cols: nat): set<Pos> {
    set r, c | 0 <= r < rows && 0 <= c < cols && Near(Pos(r, c), q) :: Pos(r, c)
  }

  /** Lower end of a clipped block range: `x - 1 if x != 0 else 0`. */
  function ClipLow(x: int): int {
    if x != 0 then x - 1 else 0
  }

  /** Upper (exclusive) end of a clipped block range: `x + 2 if x != n - 1 else n`. */
  function ClipHigh(x: int, n: int): int {
    if x != n - 1 then x + 2 else n
  }

  /** The bounds the source computes for a block slice (the `+= 1` of the
      counting pass and the loops of the flood fill) are exactly the clipped
      3x3 block. */
  lemma BlockIsClippedSlice(q: Pos, rows: nat, cols: nat)
    requires OnBoard(q, rows, cols)
    ensures Block(q, rows, cols)
         == Rect(ClipLow(q.row), ClipHigh(q.row, rows), ClipLow(q.col), ClipHigh(q.col, cols))
    ensures 0 <= ClipLow(q.row) <= q.row < ClipHigh(q.row, rows) <= rows
    ensures 0 <= ClipLow(q.col) <= q.col < ClipHigh(q.col, cols) <= cols
  {
    var s := Rect(ClipLow(q.row), ClipHigh(q.row, rows), ClipLow(q.col), ClipHigh(q.col, cols));
    forall p | p in Block(q, rows, cols) ensures p in s { }
    forall p | p in s ensures p in Block(q, rows, cols) { }
  }

  /** Nearness is symmetric, so a mine lies in the block of a cell exactly when
      that cell lies in the block of the mine. */
  lemma BlockSymmetric(p: Pos, q: Pos, rows: nat, cols: nat)
    requires OnBoard(p, rows, cols) && OnBoard(q, rows, cols)
    ensures p in Block(q, rows, cols) <==> q in Block(p, rows, cols)
  {
  }

  lemma {:induction false} RowCard(r: int, c0: int, c1: int)
    requires c0 <= c1
    ensures |Rect(r, r + 1, c0, c1)| == c1 - c0
    decreases c1 - c0
  {
    if c0 < c1 {
      RowCard(r, c0, c1 - 1);
      assert Rect(r, r + 1, c0, c1) == Rect(r, r + 1, c0, c1 - 1) + {Pos(r, c1 - 1)};
    } else {
      assert Rect(r, r + 1, c0, c1) == {};
    }
  }

  /** A slice of h rows and w columns holds h * w cells. */
  lemma {:induction false} RectCard(r0: int, r1: int, c0: int, c1: int)
    requires r0 <= r1 && c0 <= c1
    ensures |Rect(r0, r1, c0, c1)| == (r1 - r0) * (c1 - c0)
    decreases r1 - r0
  {
    if r0 < r1 {
      RectCard(r0, r1 - 1, c0, c1);
      RowCard(r1 - 1, c0, c1);
      var upper, last := Rect(r0, r1 - 1, c0, c1), Rect(r1 - 1, r1, c0, c1);
      assert Rect(r0, r1, c0, c1) == upper + last;
      assert upper * last == {};
      assert (r1 - r0) * (c1 - c0) == (r1 - 1 - r0) * (c1 - c0) + (c1 - c0);
    } else {
      assert Rect(r0, r1, c0, c1) == {};
    }
  }

  /** A subset is no larger than its superset. */
  lemma SubsetCard<T>(a: set<T>, b: set<T>)
    requires a <= b
    ensures |a| <= |b|
  {
    assert b == a + (b - a);
    assert a * (b - a) == {};
  }

  /** The cells of a content grid that hold the mine sentinel. */
  function MineSet(g: seq<seq<int>>, rows: nat, cols: nat): (s: set<Pos>)
    requires IsGrid(g, rows, cols)
    ensures s <= Cells(rows, cols)
    ensures forall r, c :: 0 <= r < rows && 0 <= c < cols ==> (Pos(r, c) in s <==> g[r][c] == MINE)
  {
    set r, c | 0 <= r < rows && 0 <= c < cols && g[r][c] == MINE :: Pos(r, c)
  }

  /** The number of mines in the clipped 3x3 block around q. */
  function AdjacentMines(g: seq<seq<int>>, rows: nat, cols: nat, q: Pos): nat
    requires IsGrid(g, rows, cols)
  {
    |Block(q, rows, cols) * MineSet(g, rows, cols)|
  }

  /** Every cell holds either the mine sentinel or the number of mines around it. */
  predicate CountsCorrect(g: seq<seq<int>>, rows: nat, cols: nat)
    requires IsGrid(g, rows, cols)
  {
    forall r, c :: 0 <= r < rows && 0 <= c < cols ==>
      g[r][c] == MINE || g[r][c] == AdjacentMines(g, rows, cols, Pos(r, c))
  }

  /** The content grid with mines on the cells of M and every other cell
      holding the number of mines in its block. */
  function CountedGrid(M: set<Pos>, rows: nat, cols: nat): (g: seq<seq<int>>)
    requires M <= Cells(rows, cols)
    ensures IsGrid(g, rows, cols) && MineSet(g, rows, cols) == M && CountsCorrect(g, rows, cols)
  {
    var g := seq(rows, r => seq(cols, c => if Pos(r, c) in M then MINE else |Block(Pos(r, c), rows, cols) * M|));
    assert MineSet(g, rows, cols) == M;
    g
  }

  /** The mines determine a correctly counted grid: it is the counted grid
      of its own mine set. */
  lemma CountedGridUnique(g: seq<seq<int>>, rows: nat, cols: nat)
    requires IsGrid(g, rows, cols) && CountsCorrect(g, rows, cols)
    ensures g == CountedGrid(MineSet(g, rows, cols), rows, cols)
  {
    var h := CountedGrid(MineSet(g, rows, cols), rows, cols);
    forall r | 0 <= r < rows ensures g[r] == h[r] {
      forall c | 0 <= c < cols ensures g[r][c] == h[r][c] {
        assert MineSet(h, rows, cols) == MineSet(g, rows, cols);
      }
    }
  }

  /** A cell whose count is 0 has no mine anywhere in its block: this is why the
      flood fill, which only spreads from zero cells, never uncovers a mine. */
  lemma ZeroCellHasNoMineNeighbour(g: seq<seq<int>>, rows: nat, cols: nat, q: Pos)
    requires IsGrid(g, rows, cols) && CountsCorrect(g, rows, cols)
    requires OnBoard(q, rows, cols) && g[q.row][q.col] == 0
    ensures forall p :: p in Block(q, rows, cols) ==> g[p.row][p.col] != MINE
  {
    var hits := Block(q, rows, cols) * MineSet(g, rows, cols);
    assert g[q.row][q.col] == |hits|;
    assert hits == {};
    forall p | p in Block(q, rows, cols) ensures g[p.row][p.col] != MINE {
      assert p !in hits;
      assert OnBoard(p, rows, cols);
    }
  }

  /** No blank cell has a mine in its block. */
  ghost predicate BlanksIsolated(g: seq<seq<int>>, rows: nat, cols: nat)
    requires IsGrid(g, rows, cols)
  {
    forall q, n :: OnBoard(q, rows, cols) && g[q.row][q.col] == 0 && n in Block(q, rows, cols) ==>
      g[n.row][n.col] != MINE
  }

  /** Correct counts keep every blank cell away from the mines. */
  lemma CountsIsolateBlanks(g: seq<seq<int>>, rows: nat, cols: nat)
    requires IsGrid(g, rows, cols) && CountsCorrect(g, rows, cols)
    ensures BlanksIsolated(g, rows, cols)
  {
    forall q | OnBoard(q, rows, cols) && g[q.row][q.col] == 0 {
      ZeroCellHasNoMineNeighbour(g, rows, cols, q);
    }
  }

  /** The value of an array2 as a grid of rows. */
  ghost function Snapshot<T>(m: array2<T>): (g: seq<seq<T>>)
    reads m
    ensures IsGrid(g, m.Length0, m.Length1)
    ensures forall r, c :: 0 <= r < m.Length0 && 0 <= c < m.Length1 ==> g[r][c] == m[r, c]
  {
    seq(m.Length0, r requires 0 <= r < m.Length0 reads m =>
      seq(m.Length1, c requires 0 <= c < m.Length1 reads m => m[r, c]))
  }
}
