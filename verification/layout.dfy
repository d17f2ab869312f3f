/** Where generate_map puts the shuffled markers: the safe zone (the clicked
    cell's 3x3 block clipped to the board) receives none, and the four
    rectangles around it (above, left, right, below) are filled row-major, in
    that order, from consecutive slices of the shuffled list. */
module Layout {
  import opened Board

  /** The safe zone's `border` tuple: top row, left column, right column and
      bottom row, all inclusive. */
  datatype Border = Border(top: int, left: int, right: int, bottom: int)

  /** The cells of the safe zone. */
  function SafeZone(b: Border): set<Pos> {
    Rect(b.top, b.bottom + 1, b.left, b.right + 1)
  }

  /** The `border` computation: the click's neighbourhood, each side clipped to
      the board; the zone it bounds is exactly the clicked cell's 3x3 block. */
  function ClipBorder(click: Pos, rows: nat, cols: nat): (b: Border)
    requires OnBoard(click, rows, cols)
    ensures 0 <= b.top <= click.row <= b.bottom < rows
    ensures 0 <= b.left <= click.col <= b.right < cols
    ensures SafeZone(b) == Block(click, rows, cols)
  {
    var b := Border(
      if click.row - 1 >= 0 then click.row - 1 else 0,
      if click.col - 1 >= 0 then click.col - 1 else 0,
      if click.col + 1 < cols then click.col + 1 else cols - 1,
      if click.row + 1 < rows then click.row + 1 else rows - 1);
    BlockIsClippedSlice(click, rows, cols);
    assert b.top == ClipLow(click.row) && b.bottom + 1 == ClipHigh(click.row, rows);
    assert b.left == ClipLow(click.col) && b.right + 1 == ClipHigh(click.col, cols);
    b
  }

  /** `size_of_start`: the area of the safe zone. */
  function SizeOfStart(b: Border): int {
    (b.bottom + 1 - b.top) * (b.right + 1 - b.left)
  }

  /** size_of_start counts exactly the cells of the clipped 3x3 block, so it is
      between 1 (a one-cell board) and 9. */
  lemma {:induction false} SizeOfStartIsArea(click: Pos, rows: nat, cols: nat)
    requires OnBoard(click, rows, cols)
    ensures SizeOfStart(ClipBorder(click, rows, cols)) == |Block(click, rows, cols)|
    ensures 1 <= SizeOfStart(ClipBorder(click, rows, cols)) <= 9
  {
    var b := ClipBorder(click, rows, cols);
    RectCard(b.top, b.bottom + 1, b.left, b.right + 1);
    var h, w := b.bottom + 1 - b.top, b.right + 1 - b.left;
    assert 1 <= h <= 3 && 1 <= w <= 3;
    MulMono(1, h, w);
    MulMono(h, 3, w);
    MulMono(w, 3, 3);
  }

  // The four regions and their sizes, as generate_map computes them.

  function RegionASize(b: Border, cols: nat): int { b.top * cols }
  function RegionBSize(b: Border): int { (b.bottom + 1 - b.top) * b.left }
  function RegionCSize(b: Border, cols: nat): int { (b.bottom + 1 - b.top) * (cols - b.right - 1) }
  function RegionDSize(b: Border, rows: nat, cols: nat): int { (rows - b.bottom - 1) * cols }

  /** Each region size is the number of cells of its rectangle: a above the
      safe zone, b left of it, c right of it, d below it. */
  lemma RegionSizesAreAreas(b: Border, rows: nat, cols: nat)
    requires WellPlaced(b, rows, cols)
    ensures RegionASize(b, cols) == |Rect(0, b.top, 0, cols)|
    ensures RegionBSize(b) == |Rect(b.top, b.bottom + 1, 0, b.left)|
    ensures RegionCSize(b, cols) == |Rect(b.top, b.bottom + 1, b.right + 1, cols)|
    ensures RegionDSize(b, rows, cols) == |Rect(b.bottom + 1, rows, 0, cols)|
    ensures SizeOfStart(b) == |SafeZone(b)|
  {
    RectCard(0, b.top, 0, cols);
    RectCard(b.top, b.bottom + 1, 0, b.left);
    RectCard(b.top, b.bottom + 1, b.right + 1, cols);
    RectCard(b.bottom + 1, rows, 0, cols);
    RectCard(b.top, b.bottom + 1, b.left, b.right + 1);
  }

  /** The number of markers the four regions take together. */
  function Outside(b: Border, rows: nat, cols: nat): int {
    RegionASize(b, cols) + RegionBSize(b) + RegionCSize(b, cols) + RegionDSize(b, rows, cols)
  }

  predicate WellPlaced(b: Border, rows: nat, cols: nat) {
    0 <= b.top <= b.bottom < rows && 0 <= b.left <= b.right < cols
  }

  /** The four region sizes add up to every cell but the safe zone, which is also
      the length of the shuffled marker list (mines plus blanks). */
  lemma RegionsCoverOutside(b: Border, rows: nat, cols: nat)
    requires WellPlaced(b, rows, cols)
    ensures Outside(b, rows, cols) == rows * cols - SizeOfStart(b)
    ensures RegionASize(b, cols) >= 0 && RegionBSize(b) >= 0
    ensures RegionCSize(b, cols) >= 0 && RegionDSize(b, rows, cols) >= 0
  {
    var h, w := b.bottom + 1 - b.top, b.right + 1 - b.left;
    MulMono(0, b.top, cols);
    MulMono(0, h, b.left);
    MulMono(0, h, cols - b.right - 1);
    MulMono(0, rows - b.bottom - 1, cols);
    MulSum(h, b.left, cols - b.right - 1);
    MulSum(cols, b.top, rows - b.bottom - 1);
    MulSum(h, cols - w, w);
    MulSum(cols, rows - h, h);
  }

  /** Multiplication distributes over a sum. */
  lemma MulSum(a: int, x: int, y: int)
    ensures a * x + a * y == a * (x + y)
    ensures x * a + y * a == (x + y) * a
  {
  }

  /** The position in the shuffled list of the marker that lands on cell q
      (meaningful for cells outside the safe zone). */
  function FlatIndex(b: Border, rows: nat, cols: nat, q: Pos): int {
    var a, ab := RegionASize(b, cols), RegionASize(b, cols) + RegionBSize(b);
    if q.row < b.top then
      q.row * cols + q.col
    else if q.row > b.bottom then
      ab + RegionCSize(b, cols) + (q.row - b.bottom - 1) * cols + q.col
    else if q.col < b.left then
      a + (q.row - b.top) * b.left + q.col
    else
      ab + (q.row - b.top) * (cols - b.right - 1) + (q.col - b.right - 1)
  }

  /** The cell that receives the k-th marker of the shuffled list. */
  function CellOf(b: Border, rows: nat, cols: nat, k: int): (q: Pos)
    requires WellPlaced(b, rows, cols) && 0 <= k < Outside(b, rows, cols)
  {
    var a, ab := RegionASize(b, cols), RegionASize(b, cols) + RegionBSize(b);
    var abc := ab + RegionCSize(b, cols);
    var h, wc := b.bottom + 1 - b.top, cols - b.right - 1;
    RegionsCoverOutside(b, rows, cols);
    if k < a then
      Pos(k / cols, k % cols)
    else if k < ab then
      Pos(b.top + (k - a) / b.left, (k - a) % b.left)
    else if k < abc then
      Pos(b.top + (k - ab) / wc, b.right + 1 + (k - ab) % wc)
    else
      Pos(b.bottom + 1 + (k - abc) / cols, (k - abc) % cols)
  }

  /** Every cell outside the safe zone gets exactly one marker: its index is in
      range and names it back. */
  lemma FlatIndexInverse(b: Border, rows: nat, cols: nat, q: Pos)
    requires WellPlaced(b, rows, cols)
    requires OnBoard(q, rows, cols) && q !in SafeZone(b)
    ensures 0 <= FlatIndex(b, rows, cols, q) < Outside(b, rows, cols)
    ensures CellOf(b, rows, cols, FlatIndex(b, rows, cols, q)) == q
  {
    RegionsCoverOutside(b, rows, cols);
    var a, ab := RegionASize(b, cols), RegionASize(b, cols) + RegionBSize(b);
    var abc := ab + RegionCSize(b, cols);
    var h, wc := b.bottom + 1 - b.top, cols - b.right - 1;
    if q.row < b.top {
      RowMajor(q.row, q.col, b.top, cols);
    } else if q.row > b.bottom {
      RowMajor(q.row - b.bottom - 1, q.col, rows - b.bottom - 1, cols);
    } else if q.col < b.left {
      RowMajor(q.row - b.top, q.col, h, b.left);
    } else {
      assert q.col > b.right;
      RowMajor(q.row - b.top, q.col - b.right - 1, h, wc);
    }
  }

  /** Every marker lands on a cell outside the safe zone, and on no other. */
  lemma CellOfInverse(b: Border, rows: nat, cols: nat, k: int)
    requires WellPlaced(b, rows, cols) && 0 <= k < Outside(b, rows, cols)
    ensures OnBoard(CellOf(b, rows, cols, k), rows, cols)
    ensures CellOf(b, rows, cols, k) !in SafeZone(b)
    ensures FlatIndex(b, rows, cols, CellOf(b, rows, cols, k)) == k
  {
    RegionsCoverOutside(b, rows, cols);
    var a, ab := RegionASize(b, cols), RegionASize(b, cols) + RegionBSize(b);
    var abc := ab + RegionCSize(b, cols);
    var h, wc := b.bottom + 1 - b.top, cols - b.right - 1;
    if k < a {
      Unflatten(k, b.top, cols);
    } else if k < ab {
      Unflatten(k - a, h, b.left);
    } else if k < abc {
      Unflatten(k - ab, h, wc);
    } else {
      Unflatten(k - abc, rows - b.bottom - 1, cols);
    }
  }

  // Arithmetic of row-major numbering.

  lemma MulMono(a: int, b: int, w: int)
    requires a <= b && 0 <= w
    ensures a * w <= b * w
  {
    assert b * w - a * w == (b - a) * w;
  }

  /** Row-major numbering of an h-by-w region is a bijection onto 0..h*w-1. */
  lemma RowMajor(r: int, c: int, h: int, w: int)
    requires 0 <= r < h && 0 <= c < w
    ensures 0 <= r * w + c < h * w
    ensures (r * w + c) / w == r && (r * w + c) % w == c
  {
    MulMono(0, r, w);
    MulMono(r + 1, h, w);
    var k := r * w + c;
    var q, m := k / w, k % w;
    assert k == q * w + m && 0 <= m < w;
    assert (r - q) * w == m - c;
    if r - q >= 1 {
      MulMono(1, r - q, w);
    } else if r - q <= -1 {
      MulMono(r - q, -1, w);
    }
  }

  lemma Unflatten(k: int, h: int, w: int)
    requires 0 <= h && 0 <= k < h * w
    ensures w > 0 && 0 <= k / w < h && 0 <= k % w < w
    ensures (k / w) * w + k % w == k
  {
    if w <= 0 {
      MulMono(0, h, -w);
      assert false;
    }
    var q := k / w;
    if q >= h {
      MulMono(h, q, w);
    }
    if q < 0 {
      MulMono(q, -1, w);
    }
  }

  /** The marker the shuffled list puts on cell q (the safe zone keeps the
      blank of `np.full((rows, cols), 0)`). */
  function Marker(s: seq<int>, b: Border, rows: nat, cols: nat, q: Pos): int
    requires WellPlaced(b, rows, cols) && |s| == Outside(b, rows, cols)
    requires OnBoard(q, rows, cols)
  {
    if q in SafeZone(b) then 0
    else
      FlatIndexInverse(b, rows, cols, q);
      s[FlatIndex(b, rows, cols, q)]
  }

  /** The k-th entry of the shuffled list lands on the k-th cell outside the
      safe zone, and the safe zone keeps its blank. */
  lemma MarkerOfCell(s: seq<int>, b: Border, rows: nat, cols: nat, k: int)
    requires WellPlaced(b, rows, cols) && |s| == Outside(b, rows, cols) && 0 <= k < |s|
    ensures OnBoard(CellOf(b, rows, cols, k), rows, cols) && CellOf(b, rows, cols, k) !in SafeZone(b)
    ensures Marker(s, b, rows, cols, CellOf(b, rows, cols, k)) == s[k]
  {
    CellOfInverse(b, rows, cols, k);
  }

  /** The cells that receive a mine marker. */
  function MarkedMines(s: seq<int>, b: Border, rows: nat, cols: nat): set<Pos>
    requires WellPlaced(b, rows, cols) && |s| == Outside(b, rows, cols)
  {
    MarkedPrefix(s, b, rows, cols, |s|)
  }

  /** A cell is a marked mine exactly when the marker placed on it is one; none
      of them is in the safe zone. */
  lemma MarkedMinesAreMarkers(s: seq<int>, b: Border, rows: nat, cols: nat, q: Pos)
    requires WellPlaced(b, rows, cols) && |s| == Outside(b, rows, cols)
    requires OnBoard(q, rows, cols)
    ensures q in MarkedMines(s, b, rows, cols) <==> Marker(s, b, rows, cols, q) == MINE
    ensures q in MarkedMines(s, b, rows, cols) ==> q !in SafeZone(b)
  {
    if q in MarkedMines(s, b, rows, cols) {
      var k :| 0 <= k < |s| && s[k] == MINE && CellOf(b, rows, cols, k) == q;
      CellOfInverse(b, rows, cols, k);
    }
    if q !in SafeZone(b) && Marker(s, b, rows, cols, q) == MINE {
      FlatIndexInverse(b, rows, cols, q);
    }
  }

  /** There are as many mine cells as mine markers in the shuffled list. */
  lemma MarkedMinesCount(s: seq<int>, b: Border, rows: nat, cols: nat)
    requires WellPlaced(b, rows, cols) && |s| == Outside(b, rows, cols)
    ensures |MarkedMines(s, b, rows, cols)| == multiset(s)[MINE]
    ensures MarkedMines(s, b, rows, cols) <= Cells(rows, cols)
  {
    MarkedPrefixCount(s, b, rows, cols, |s|);
    assert s[..|s|] == s;
    assert MarkedPrefix(s, b, rows, cols, |s|) == MarkedMines(s, b, rows, cols);
    forall q | q in MarkedMines(s, b, rows, cols) ensures q in Cells(rows, cols) {
      var k :| 0 <= k < |s| && s[k] == MINE && CellOf(b, rows, cols, k) == q;
      CellOfInverse(b, rows, cols, k);
    }
  }

  /** The cells the first i markers put mines on. */
  function MarkedPrefix(s: seq<int>, b: Border, rows: nat, cols: nat, i: int): set<Pos>
    requires WellPlaced(b, rows, cols) && |s| == Outside(b, rows, cols)
    requires 0 <= i <= |s|
  {
    set k | 0 <= k < i && s[k] == MINE :: CellOf(b, rows, cols, k)
  }

  /** One more marker adds its cell when it is a mine marker, and that cell
      is new, because no two markers land on the same cell. */
  lemma MarkedPrefixGrows(s: seq<int>, b: Border, rows: nat, cols: nat, i: int)
    requires WellPlaced(b, rows, cols) && |s| == Outside(b, rows, cols)
    requires 0 < i <= |s|
    ensures MarkedPrefix(s, b, rows, cols, i)
         == MarkedPrefix(s, b, rows, cols, i - 1) + (if s[i - 1] == MINE then {CellOf(b, rows, cols, i - 1)} else {})
    ensures s[i - 1] == MINE ==> CellOf(b, rows, cols, i - 1) !in MarkedPrefix(s, b, rows, cols, i - 1)
  {
    var q := CellOf(b, rows, cols, i - 1);
    if s[i - 1] == MINE && q in MarkedPrefix(s, b, rows, cols, i - 1) {
      var k1 :| 0 <= k1 < i - 1 && s[k1] == MINE && CellOf(b, rows, cols, k1) == q;
      CellOfInverse(b, rows, cols, k1);
      CellOfInverse(b, rows, cols, i - 1);
    }
  }

  /** The first i markers put their mines on as many distinct cells as they hold
      mine markers. */
  lemma {:induction false} MarkedPrefixCount(s: seq<int>, b: Border, rows: nat, cols: nat, i: int)
    requires WellPlaced(b, rows, cols) && |s| == Outside(b, rows, cols)
    requires 0 <= i <= |s|
    ensures |MarkedPrefix(s, b, rows, cols, i)| == multiset(s[..i])[MINE]
  {
    if i > 0 {
      MarkedPrefixCount(s, b, rows, cols, i - 1);
      MarkedPrefixGrows(s, b, rows, cols, i);
      assert s[..i] == s[..i - 1] + [s[i - 1]];
    } else {
      assert MarkedPrefix(s, b, rows, cols, i) == {};
    }
  }
}
