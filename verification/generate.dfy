/** generate_map: pours a shuffled list of mine and blank markers into the four
    regions around the safe zone, lists the mines row-major (np.argwhere),
    adds 1 around every mine, writes the mine sentinel back, and starts again
    with a fresh shuffle when the opening check rejects the map or a count of
    7 or 8 appears. The random shuffle is an input: `shuffles[i]` is the list
    the i-th attempt draws. */
module Generate {
  import opened Board
  import opened Layout
  import opened Fairness

  /** The exceptions generate_map lets escape. */
  datatype Failure = IndexError | ValueError

  datatype Generation =
    | Generated(board: array2<int>, coor: seq<Pos>)
    | Raised(error: Failure)
    | OutOfShuffles

  /** s is a shuffle of `mines` mine markers and length - mines blanks. */
  predicate IsMarkerList(s: seq<int>, mines: int, length: int) {
    && |s| == length
    && multiset(s)[MINE] == mines
    && forall k :: 0 <= k < |s| ==> s[k] == MINE || s[k] == 0
  }

  /** p comes before q when a grid is read row by row. */
  predicate Before(p: Pos, q: Pos) {
    p.row < q.row || (p.row == q.row && p.col < q.col)
  }

  predicate Ascending(coor: seq<Pos>) {
    forall i, j :: 0 <= i < j < |coor| ==> Before(coor[i], coor[j])
  }

  /** coor is `np.argwhere(g == -1)`: the mine cells of g, each once, row-major. */
  predicate ListsMines(coor: seq<Pos>, g: seq<seq<int>>, rows: nat, cols: nat)
    requires IsGrid(g, rows, cols)
  {
    && Ascending(coor)
    && (forall i :: 0 <= i < |coor| ==> OnBoard(coor[i], rows, cols) && g[coor[i].row][coor[i].col] == MINE)
    && (forall r, c :: 0 <= r < rows && 0 <= c < cols && g[r][c] == MINE ==> Pos(r, c) in coor)
  }

  /** A board as one attempt leaves it: the requested number of mines, none in
      the clicked cell's block, and every other cell counting its neighbours. */
  predicate CountedMap(g: seq<seq<int>>, rows: nat, cols: nat, mines: int, click: Pos)
    requires IsGrid(g, rows, cols)
  {
    && |MineSet(g, rows, cols)| == mines
    && MineSet(g, rows, cols) * Block(click, rows, cols) == {}
    && CountsCorrect(g, rows, cols)
  }

  /** What a map returned by generate_map satisfies: a counted board that the
      opening check accepts and that holds no 7 or 8. */
  predicate ValidMap(g: seq<seq<int>>, rows: nat, cols: nat, mines: int, click: Pos)
    requires IsGrid(g, rows, cols)
  {
    && CountedMap(g, rows, cols, mines, click)
    && WalkVerdict(g, rows, cols, click) == Some(true)
    && NoSevenOrEight(g, rows, cols)
  }

  /** No cell of g holds a 7 or an 8. */
  predicate NoSevenOrEight(g: seq<seq<int>>, rows: nat, cols: nat)
    requires IsGrid(g, rows, cols)
  {
    forall r, c :: 0 <= r < rows && 0 <= c < cols ==> g[r][c] != 7 && g[r][c] != 8
  }

  // Which board generate_map returns, as a function of the shuffles.

  /** The board one attempt builds from the shuffled list `markers`: mines on
      the cells the markers land on, every other cell counting its block. */
  function Attempt(click: Pos, rows: nat, cols: nat, markers: seq<int>): (g: seq<seq<int>>)
    requires OnBoard(click, rows, cols)
    requires |markers| == rows * cols - SizeOfStart(ClipBorder(click, rows, cols))
    ensures IsGrid(g, rows, cols)
  {
    var b := ClipBorder(click, rows, cols);
    RegionsCoverOutside(b, rows, cols);
    MarkedMinesCount(markers, b, rows, cols);
    CountedGrid(MarkedMines(markers, b, rows, cols), rows, cols)
  }

  /** An attempt's board is counted correctly, has as many mines as the list
      has mine markers, and none in the clicked cell's block. */
  lemma AttemptIsCounted(click: Pos, rows: nat, cols: nat, markers: seq<int>)
    requires OnBoard(click, rows, cols)
    requires |markers| == rows * cols - SizeOfStart(ClipBorder(click, rows, cols))
    ensures CountsCorrect(Attempt(click, rows, cols, markers), rows, cols)
    ensures |MineSet(Attempt(click, rows, cols, markers), rows, cols)| == multiset(markers)[MINE]
    ensures MineSet(Attempt(click, rows, cols, markers), rows, cols) * Block(click, rows, cols) == {}
  {
    var b := ClipBorder(click, rows, cols);
    RegionsCoverOutside(b, rows, cols);
    MarkedMinesCount(markers, b, rows, cols);
    forall q | q in MarkedMines(markers, b, rows, cols) ensures q !in SafeZone(b) {
      MarkedMinesAreMarkers(markers, b, rows, cols, q);
    }
  }

  /** Every shuffle in the supply has the length of the marker list. */
  predicate SizedShuffles(shuffles: seq<seq<int>>, click: Pos, rows: nat, cols: nat)
    requires OnBoard(click, rows, cols)
  {
    forall i :: 0 <= i < |shuffles| ==> |shuffles[i]| == rows * cols - SizeOfStart(ClipBorder(click, rows, cols))
  }

  /** A supply of shuffled marker lists is sized for the board. */
  lemma MarkerListsSized(click: Pos, rows: nat, cols: nat, mines: int, shuffles: seq<seq<int>>)
    requires OnBoard(click, rows, cols)
    requires forall i :: 0 <= i < |shuffles| ==>
      IsMarkerList(shuffles[i], mines, rows * cols - SizeOfStart(ClipBorder(click, rows, cols)))
    ensures SizedShuffles(shuffles, click, rows, cols)
    ensures |shuffles| > 0 ==> SizedShuffles(shuffles[1..], click, rows, cols)
  {
    forall i | 0 <= i < |shuffles|
      ensures |shuffles[i]| == rows * cols - SizeOfStart(ClipBorder(click, rows, cols))
    {
      assert IsMarkerList(shuffles[i], mines, rows * cols - SizeOfStart(ClipBorder(click, rows, cols)));
    }
  }

  /** How the chain of attempts ends. */
  datatype Drawn = Kept(grid: seq<seq<int>>) | WalkRaised | NoDrawLeft

  /** generate_map's outcome on a supply of shuffles: the first attempt's board
      is kept when the opening check accepts it and it holds no 7 or 8; the
      check raising ends the chain; any other rejection moves on to the next
      shuffle. */
  function Draw(click: Pos, rows: nat, cols: nat, shuffles: seq<seq<int>>): (d: Drawn)
    requires OnBoard(click, rows, cols) && SizedShuffles(shuffles, click, rows, cols)
    ensures d.Kept? ==>
      && IsGrid(d.grid, rows, cols)
      && NoSevenOrEight(d.grid, rows, cols)
      && WalkVerdict(d.grid, rows, cols, click) == Some(true)
    decreases |shuffles|
  {
    if |shuffles| == 0 then NoDrawLeft
    else
      var g := Attempt(click, rows, cols, shuffles[0]);
      match WalkVerdict(g, rows, cols, click)
      case None => WalkRaised
      case Some(ok) =>
        if ok && NoSevenOrEight(g, rows, cols) then Kept(g)
        else Draw(click, rows, cols, shuffles[1..])
  }

  /** A kept board is the board of one of the supplied shuffles. */
  lemma {:induction false} DrawKeptIsAttempt(click: Pos, rows: nat, cols: nat, shuffles: seq<seq<int>>)
    requires OnBoard(click, rows, cols) && SizedShuffles(shuffles, click, rows, cols)
    ensures Draw(click, rows, cols, shuffles).Kept? ==>
      exists i :: 0 <= i < |shuffles| && Draw(click, rows, cols, shuffles).grid == Attempt(click, rows, cols, shuffles[i])
    decreases |shuffles|
  {
    var d := Draw(click, rows, cols, shuffles);
    if d.Kept? && d != Kept(Attempt(click, rows, cols, shuffles[0])) {
      var rest := shuffles[1..];
      assert d == Draw(click, rows, cols, rest);
      DrawKeptIsAttempt(click, rows, cols, rest);
      var i :| 0 <= i < |rest| && d.grid == Attempt(click, rows, cols, rest[i]);
      assert rest[i] == shuffles[i + 1];
    }
  }

  /** A board generate_map keeps from a supply of well-formed shuffles is a
      valid map. */
  lemma DrawKeptIsValid(click: Pos, rows: nat, cols: nat, mines: int, shuffles: seq<seq<int>>)
    requires OnBoard(click, rows, cols)
    requires forall i :: 0 <= i < |shuffles| ==>
      IsMarkerList(shuffles[i], mines, rows * cols - SizeOfStart(ClipBorder(click, rows, cols)))
    ensures (MarkerListsSized(click, rows, cols, mines, shuffles);
      Draw(click, rows, cols, shuffles).Kept? ==>
      ValidMap(Draw(click, rows, cols, shuffles).grid, rows, cols, mines, click))
  {
    var d := Draw(click, rows, cols, shuffles);
    if d.Kept? {
      DrawKeptIsAttempt(click, rows, cols, shuffles);
      var i :| 0 <= i < |shuffles| && d.grid == Attempt(click, rows, cols, shuffles[i]);
      AttemptIsCounted(click, rows, cols, shuffles[i]);
    }
  }

  /** A correctly counted board whose mines are those the markers land on is
      the attempt's board. */
  lemma IsAttempt(g: seq<seq<int>>, click: Pos, rows: nat, cols: nat, markers: seq<int>)
    requires OnBoard(click, rows, cols)
    requires |markers| == rows * cols - SizeOfStart(ClipBorder(click, rows, cols))
    requires IsGrid(g, rows, cols) && CountsCorrect(g, rows, cols)
    requires WellPlaced(ClipBorder(click, rows, cols), rows, cols)
    requires |markers| == Outside(ClipBorder(click, rows, cols), rows, cols)
    requires MineSet(g, rows, cols) == MarkedMines(markers, ClipBorder(click, rows, cols), rows, cols)
    ensures g == Attempt(click, rows, cols, markers)
  {
    CountedGridUnique(g, rows, cols);
  }

  /** A result of generate_map is the outcome d: the kept board, an IndexError
      from the opening check, or no shuffle left. */
  ghost predicate Produced(res: Generation, d: Drawn)
    reads if res.Generated? then {res.board} else {}
  {
    match d
    case Kept(g) => res.Generated? && Snapshot(res.board) == g
    case WalkRaised => res == Raised(IndexError)
    case NoDrawLeft => res == OutOfShuffles
  }

  // Placement (the np.full board and the four slice assignments).

  /** The marker that `submap.resize((r1 - r0, c1 - c0))` puts on cell q of the
      slice `[r0:r1, c0:c1]`, for a submap starting at s[start]. */
  function Poured(s: seq<int>, start: int, r0: int, r1: int, c0: int, c1: int, q: Pos): int
    requires r0 <= q.row < r1 && c0 <= q.col < c1
    requires 0 <= start && start + (r1 - r0) * (c1 - c0) <= |s|
  {
    RowMajor(q.row - r0, q.col - c0, r1 - r0, c1 - c0);
    s[start + (q.row - r0) * (c1 - c0) + (q.col - c0)]
  }

  /** `full_map[r0:r1, c0:c1] = submap`, cell by cell; nothing outside the
      slice changes. */
  method FillRegion(m: array2<int>, s: seq<int>, start: int, r0: int, r1: int, c0: int, c1: int)
    requires 0 <= r0 <= r1 <= m.Length0 && 0 <= c0 <= c1 <= m.Length1
    requires 0 <= start && start + (r1 - r0) * (c1 - c0) <= |s|
    modifies m
    ensures PouredInto(old(Snapshot(m)), Snapshot(m), m.Length0, m.Length1, s, start, r0, r1, c0, c1)
  {
    ghost var g0 := Snapshot(m);
    for r := r0 to r1
      invariant forall i, j :: 0 <= i < m.Length0 && 0 <= j < m.Length1 ==>
        m[i, j] == if r0 <= i < r && c0 <= j < c1 then Poured(s, start, r0, r1, c0, c1, Pos(i, j)) else old(m[i, j])
    {
      for c := c0 to c1
        invariant forall i, j :: 0 <= i < m.Length0 && 0 <= j < m.Length1 ==>
          m[i, j] == if (r0 <= i < r && c0 <= j < c1) || (i == r && c0 <= j < c)
                     then Poured(s, start, r0, r1, c0, c1, Pos(i, j)) else old(m[i, j])
      {
        m[r, c] := Poured(s, start, r0, r1, c0, c1, Pos(r, c));
      }
    }
    assert PouredInto(g0, Snapshot(m), m.Length0, m.Length1, s, start, r0, r1, c0, c1);
  }

  /** g1 is g0 with the submap starting at s[start] poured into the slice
      `[r0:r1, c0:c1]`. */
  ghost predicate PouredInto(g0: seq<seq<int>>, g1: seq<seq<int>>, rows: nat, cols: nat, s: seq<int>, start: int,
                             r0: int, r1: int, c0: int, c1: int)
    requires IsGrid(g0, rows, cols) && IsGrid(g1, rows, cols)
    requires r0 <= r1 && c0 <= c1 && 0 <= start && start + (r1 - r0) * (c1 - c0) <= |s|
  {
    forall r, c :: 0 <= r < rows && 0 <= c < cols ==>
      g1[r][c] == if r0 <= r < r1 && c0 <= c < c1 then Poured(s, start, r0, r1, c0, c1, Pos(r, c)) else g0[r][c]
  }

  /** A slice with no cells (the `size != 0` guard failing) leaves the board
      as it was. */
  lemma NothingPoured(g: seq<seq<int>>, rows: nat, cols: nat, s: seq<int>, start: int,
                      r0: int, r1: int, c0: int, c1: int)
    requires IsGrid(g, rows, cols)
    requires r0 <= r1 && c0 <= c1 && 0 <= start && start + (r1 - r0) * (c1 - c0) <= |s|
    requires (r1 - r0) * (c1 - c0) == 0
    ensures PouredInto(g, g, rows, cols, s, start, r0, r1, c0, c1)
  {
    assert r0 == r1 || c0 == c1;
  }

  /** Which part of the board q is in: 0 the safe zone, 1 above it (region a),
      2 left of it (b), 3 right of it (c), 4 below it (d). */
  function RegionOf(b: Border, q: Pos): int {
    if q.row < b.top then 1
    else if q.row > b.bottom then 4
    else if q.col < b.left then 2
    else if q.col > b.right then 3
    else 0
  }

  /** The board after the regions numbered 1..stage have been filled. */
  ghost predicate FilledThrough(g: seq<seq<int>>, s: seq<int>, b: Border, rows: nat, cols: nat, stage: int)
    requires WellPlaced(b, rows, cols) && |s| == Outside(b, rows, cols) && IsGrid(g, rows, cols)
  {
    forall r, c :: 0 <= r < rows && 0 <= c < cols ==>
      g[r][c] == if RegionOf(b, Pos(r, c)) <= stage then Marker(s, b, rows, cols, Pos(r, c)) else 0
  }

  /** The slice `[r0:r1, c0:c1]` is exactly region `stage`, and pouring the
      submap that starts at s[start] into it puts on each cell its marker. */
  ghost predicate RegionSlice(s: seq<int>, b: Border, rows: nat, cols: nat, stage: int,
                              start: int, r0: int, r1: int, c0: int, c1: int)
    requires WellPlaced(b, rows, cols) && |s| == Outside(b, rows, cols)
  {
    && 0 <= r0 <= r1 <= rows && 0 <= c0 <= c1 <= cols
    && 0 <= start && start + (r1 - r0) * (c1 - c0) <= |s|
    && (forall r, c :: 0 <= r < rows && 0 <= c < cols ==>
          (RegionOf(b, Pos(r, c)) == stage <==> r0 <= r < r1 && c0 <= c < c1))
    && (forall r, c :: r0 <= r < r1 && c0 <= c < c1 ==>
          Poured(s, start, r0, r1, c0, c1, Pos(r, c)) == Marker(s, b, rows, cols, Pos(r, c)))
  }

  /** Filling region `stage` takes the board from stage - 1 to stage. */
  lemma FillStep(g0: seq<seq<int>>, g1: seq<seq<int>>, s: seq<int>, b: Border, rows: nat, cols: nat,
                 stage: int, start: int, r0: int, r1: int, c0: int, c1: int)
    requires WellPlaced(b, rows, cols) && |s| == Outside(b, rows, cols)
    requires IsGrid(g0, rows, cols) && IsGrid(g1, rows, cols) && 1 <= stage
    requires RegionSlice(s, b, rows, cols, stage, start, r0, r1, c0, c1)
    requires FilledThrough(g0, s, b, rows, cols, stage - 1)
    requires PouredInto(g0, g1, rows, cols, s, start, r0, r1, c0, c1)
    ensures FilledThrough(g1, s, b, rows, cols, stage)
  {
  }

  lemma RegionASlice(s: seq<int>, b: Border, rows: nat, cols: nat)
    requires WellPlaced(b, rows, cols) && |s| == Outside(b, rows, cols)
    ensures RegionSlice(s, b, rows, cols, 1, 0, 0, b.top, 0, cols)
    ensures RegionASize(b, cols) == (b.top - 0) * (cols - 0)
  {
    RegionsCoverOutside(b, rows, cols);
  }

  lemma RegionBSlice(s: seq<int>, b: Border, rows: nat, cols: nat)
    requires WellPlaced(b, rows, cols) && |s| == Outside(b, rows, cols)
    ensures RegionSlice(s, b, rows, cols, 2, RegionASize(b, cols), b.top, b.bottom + 1, 0, b.left)
    ensures RegionBSize(b) == (b.bottom + 1 - b.top) * (b.left - 0)
  {
    RegionsCoverOutside(b, rows, cols);
  }

  lemma RegionCSlice(s: seq<int>, b: Border, rows: nat, cols: nat)
    requires WellPlaced(b, rows, cols) && |s| == Outside(b, rows, cols)
    ensures RegionSlice(s, b, rows, cols, 3, RegionASize(b, cols) + RegionBSize(b), b.top, b.bottom + 1, b.right + 1, cols)
    ensures RegionCSize(b, cols) == (b.bottom + 1 - b.top) * (cols - (b.right + 1))
  {
    RegionsCoverOutside(b, rows, cols);
  }

  lemma RegionDSlice(s: seq<int>, b: Border, rows: nat, cols: nat)
    requires WellPlaced(b, rows, cols) && |s| == Outside(b, rows, cols)
    ensures RegionSlice(s, b, rows, cols, 4, RegionASize(b, cols) + RegionBSize(b) + RegionCSize(b, cols),
                        b.bottom + 1, rows, 0, cols)
    ensures RegionDSize(b, rows, cols) == (rows - (b.bottom + 1)) * (cols - 0)
  {
    RegionsCoverOutside(b, rows, cols);
  }

  /** One of the four region blocks of the placement: when the region is not
      empty, the next `size` markers are poured into its slice and the cursor
      `count` moves past them. */
  method PourRegion(m: array2<int>, s: seq<int>, b: Border, stage: int, count: int, size: int,
                    r0: int, r1: int, c0: int, c1: int) returns (next: int)
    requires WellPlaced(b, m.Length0, m.Length1) && |s| == Outside(b, m.Length0, m.Length1) && 1 <= stage
    requires RegionSlice(s, b, m.Length0, m.Length1, stage, count, r0, r1, c0, c1)
    requires size == (r1 - r0) * (c1 - c0)
    requires FilledThrough(Snapshot(m), s, b, m.Length0, m.Length1, stage - 1)
    modifies m
    ensures FilledThrough(Snapshot(m), s, b, m.Length0, m.Length1, stage)
    ensures next == count + size
  {
    ghost var g := Snapshot(m);
    next := count;
    if size != 0 {
      FillRegion(m, s, count, r0, r1, c0, c1);
      next := next + size;
    } else {
      NothingPoured(g, m.Length0, m.Length1, s, count, r0, r1, c0, c1);
    }
    ghost var g1 := Snapshot(m);
    FillStep(g, g1, s, b, m.Length0, m.Length1, stage, count, r0, r1, c0, c1);
  }

  /** The placement (from `full_map = np.full(...)` to region d): every cell
      gets the marker of its place in the shuffled list, the safe zone 0. */
  method Place(markers: seq<int>, b: Border, rows: nat, cols: nat) returns (m: array2<int>)
    requires WellPlaced(b, rows, cols) && |markers| == Outside(b, rows, cols)
    ensures fresh(m) && m.Length0 == rows && m.Length1 == cols
    ensures forall r, c :: 0 <= r < rows && 0 <= c < cols ==> m[r, c] == Marker(markers, b, rows, cols, Pos(r, c))
  {
    var count;
    m, count := PlaceAboveLeft(markers, b, rows, cols);
    RegionCSlice(markers, b, rows, cols);
    count := PourRegion(m, markers, b, 3, count, RegionCSize(b, cols), b.top, b.bottom + 1, b.right + 1, cols);
    RegionDSlice(markers, b, rows, cols);
    count := PourRegion(m, markers, b, 4, count, RegionDSize(b, rows, cols), b.bottom + 1, rows, 0, cols);
    assert FilledThrough(Snapshot(m), markers, b, rows, cols, 4);
  }

  /** The first half of the placement: the zero board, then regions a and b;
      `count` is the cursor into the shuffled list after them. */
  method PlaceAboveLeft(markers: seq<int>, b: Border, rows: nat, cols: nat) returns (m: array2<int>, count: int)
    requires WellPlaced(b, rows, cols) && |markers| == Outside(b, rows, cols)
    ensures fresh(m) && m.Length0 == rows && m.Length1 == cols
    ensures FilledThrough(Snapshot(m), markers, b, rows, cols, 2)
    ensures count == RegionASize(b, cols) + RegionBSize(b)
  {
    m := new int[rows, cols]((r, c) => 0);
    assert FilledThrough(Snapshot(m), markers, b, rows, cols, 0);
    count := 0;
    RegionASlice(markers, b, rows, cols);
    count := PourRegion(m, markers, b, 1, count, RegionASize(b, cols), 0, b.top, 0, cols);
    RegionBSlice(markers, b, rows, cols);
    count := PourRegion(m, markers, b, 2, count, RegionBSize(b), b.top, b.bottom + 1, 0, b.left);
  }

  // Listing the mines (np.argwhere) and checking for 7 and 8.

  /** `np.argwhere(m == -1)`: scans the board row by row. */
  method FindMines(m: array2<int>) returns (coor: seq<Pos>)
    ensures ListsMines(coor, Snapshot(m), m.Length0, m.Length1)
  {
    coor := [];
    for r := 0 to m.Length0
      invariant forall i :: 0 <= i < |coor| ==>
        OnBoard(coor[i], m.Length0, m.Length1) && m[coor[i].row, coor[i].col] == MINE && coor[i].row < r
      invariant forall i, j :: 0 <= i < r && 0 <= j < m.Length1 && m[i, j] == MINE ==> Pos(i, j) in coor
      invariant Ascending(coor)
    {
      for c := 0 to m.Length1
        invariant forall i :: 0 <= i < |coor| ==>
          OnBoard(coor[i], m.Length0, m.Length1) && m[coor[i].row, coor[i].col] == MINE && Before(coor[i], Pos(r, c))
        invariant forall i, j ::
          (0 <= i < m.Length0 && 0 <= j < m.Length1 && Before(Pos(i, j), Pos(r, c)) && m[i, j] == MINE) ==> Pos(i, j) in coor
        invariant Ascending(coor)
      {
        if m[r, c] == MINE {
          coor := coor + [Pos(r, c)];
        }
      }
    }
  }

  /** `np.argwhere(m == v).size > 0`. */
  method Contains(m: array2<int>, v: int) returns (found: bool)
    ensures found <==> exists r, c :: 0 <= r < m.Length0 && 0 <= c < m.Length1 && m[r, c] == v
  {
    found := false;
    for r := 0 to m.Length0
      invariant found <==> exists i, j :: 0 <= i < r && 0 <= j < m.Length1 && m[i, j] == v
    {
      for c := 0 to m.Length1
        invariant found <==> exists i, j :: 0 <= j < m.Length1 && (i < r || (i == r && j < c)) && 0 <= i && m[i, j] == v
      {
        if m[r, c] == v {
          found := true;
        }
      }
    }
  }

  // The counting pass.

  /** `full_map[r0:r1, c0:c1] += 1`. */
  method IncrementRect(m: array2<int>, r0: int, r1: int, c0: int, c1: int)
    requires 0 <= r0 <= r1 <= m.Length0 && 0 <= c0 <= c1 <= m.Length1
    modifies m
    ensures forall r, c :: 0 <= r < m.Length0 && 0 <= c < m.Length1 ==>
      m[r, c] == old(m[r, c]) + if r0 <= r < r1 && c0 <= c < c1 then 1 else 0
  {
    for r := r0 to r1
      invariant forall i, j :: 0 <= i < m.Length0 && 0 <= j < m.Length1 ==>
        m[i, j] == old(m[i, j]) + if r0 <= i < r && c0 <= j < c1 then 1 else 0
    {
      for c := c0 to c1
        invariant forall i, j :: 0 <= i < m.Length0 && 0 <= j < m.Length1 ==>
          m[i, j] == old(m[i, j]) + if (r0 <= i < r && c0 <= j < c1) || (i == r && c0 <= j < c) then 1 else 0
      {
        m[r, c] := m[r, c] + 1;
      }
    }
  }

  /** How many of the listed mines have q in their clipped 3x3 block, i.e. how
      many times the counting pass adds 1 to q. */
  function NearCount(coor: seq<Pos>, q: Pos, rows: nat, cols: nat): nat {
    if |coor| == 0 then 0
    else
      NearCount(coor[..|coor| - 1], q, rows, cols)
      + if q in Block(coor[|coor| - 1], rows, cols) then 1 else 0
  }

  /** The counting pass, `for row, col in coor: full_map[block] += 1`, with the
      block bounds computed as the source does. */
  method AddCounts(m: array2<int>, coor: seq<Pos>)
    requires forall i :: 0 <= i < |coor| ==> OnBoard(coor[i], m.Length0, m.Length1)
    modifies m
    ensures forall r, c :: 0 <= r < m.Length0 && 0 <= c < m.Length1 ==>
      m[r, c] == old(m[r, c]) + NearCount(coor, Pos(r, c), m.Length0, m.Length1)
  {
    var rows, cols := m.Length0, m.Length1;
    for i := 0 to |coor|
      invariant forall r, c :: 0 <= r < rows && 0 <= c < cols ==>
        m[r, c] == old(m[r, c]) + NearCount(coor[..i], Pos(r, c), rows, cols)
    {
      var p := coor[i];
      var startRow, endRow, startCol, endCol := p.row - 1, p.row + 2, p.col - 1, p.col + 2;
      if p.row == 0 {
        startRow := 0;
      }
      if p.row == rows - 1 {
        endRow := rows;
      }
      if p.col == 0 {
        startCol := 0;
      }
      if p.col == cols - 1 {
        endCol := cols;
      }
      BlockIsClippedSlice(p, rows, cols);
      IncrementRect(m, startRow, endRow, startCol, endCol);
      assert coor[..i + 1][..i] == coor[..i];
      forall r, c | 0 <= r < rows && 0 <= c < cols
        ensures m[r, c] == old(m[r, c]) + NearCount(coor[..i + 1], Pos(r, c), rows, cols)
      {
        assert (startRow <= r < endRow && startCol <= c < endCol) <==> Pos(r, c) in Block(p, rows, cols);
      }
    }
    assert coor[..|coor|] == coor;
  }

  /** `for row, col in np.nditer(coor, ...): full_map[row][col] = -1`. */
  method ResetMines(m: array2<int>, coor: seq<Pos>)
    requires forall i :: 0 <= i < |coor| ==> OnBoard(coor[i], m.Length0, m.Length1)
    modifies m
    ensures forall r, c :: 0 <= r < m.Length0 && 0 <= c < m.Length1 ==>
      m[r, c] == if Pos(r, c) in coor then MINE else old(m[r, c])
  {
    for i := 0 to |coor|
      invariant forall r, c :: 0 <= r < m.Length0 && 0 <= c < m.Length1 ==>
        m[r, c] == if Pos(r, c) in coor[..i] then MINE else old(m[r, c])
    {
      m[coor[i].row, coor[i].col] := MINE;
      assert coor[..i + 1] == coor[..i] + [coor[i]];
    }
    assert coor[..|coor|] == coor;
  }

  // What the counting pass achieves.

  /** A row-major listing holds each cell once, so it has as many entries as
      cells. */
  lemma {:induction false} AscendingCard(coor: seq<Pos>)
    requires Ascending(coor)
    ensures |set p | p in coor| == |coor|
  {
    if |coor| > 0 {
      var s, p := coor[..|coor| - 1], coor[|coor| - 1];
      assert coor == s + [p];
      LastIsNew(s, p);
      AscendingCard(s);
    }
  }

  /** The last cell of an ascending list is not among the earlier ones. */
  lemma LastIsNew(s: seq<Pos>, p: Pos)
    requires Ascending(s + [p])
    ensures Ascending(s)
    ensures p !in (set x | x in s)
    ensures (set x | x in s + [p]) == (set x | x in s) + {p}
  {
    var t := s + [p];
    forall i | 0 <= i < |s| ensures Before(s[i], p) {
      assert t[i] == s[i] && t[|s|] == p;
    }
    forall i, j | 0 <= i < j < |s| ensures Before(s[i], s[j]) {
      assert t[i] == s[i] && t[j] == s[j];
    }
    assert (set x | x in t) == (set x | x in s) + {p};
  }

  /** The counting pass adds to q exactly the number of listed mines in q's
      clipped 3x3 block. */
  lemma {:induction false} NearCountIsBlockCount(coor: seq<Pos>, q: Pos, rows: nat, cols: nat)
    requires Ascending(coor) && OnBoard(q, rows, cols)
    requires forall i :: 0 <= i < |coor| ==> OnBoard(coor[i], rows, cols)
    ensures NearCount(coor, q, rows, cols) == |Block(q, rows, cols) * (set p | p in coor)|
  {
    if |coor| > 0 {
      var s, p := coor[..|coor| - 1], coor[|coor| - 1];
      assert coor == s + [p];
      LastIsNew(s, p);
      NearCountIsBlockCount(s, q, rows, cols);
      CountOneMore(Block(q, rows, cols), (set x | x in s), p);
      BlockSymmetric(p, q, rows, cols);
    }
  }

  lemma CountOneMore<T>(a: set<T>, s: set<T>, p: T)
    requires p !in s
    ensures |a * (s + {p})| == |a * s| + if p in a then 1 else 0
  {
    if p in a {
      assert a * (s + {p}) == a * s + {p};
    } else {
      assert a * (s + {p}) == a * s;
    }
  }

  /** After the counting pass and the reset the mines are those of the placed
      board: a counted cell holds a non-negative number. */
  lemma CountedMines(placed: seq<seq<int>>, g: seq<seq<int>>, coor: seq<Pos>, rows: nat, cols: nat)
    requires IsGrid(placed, rows, cols) && IsGrid(g, rows, cols)
    requires forall r, c :: 0 <= r < rows && 0 <= c < cols ==> placed[r][c] == 0 || placed[r][c] == MINE
    requires ListsMines(coor, placed, rows, cols)
    requires forall r, c :: 0 <= r < rows && 0 <= c < cols ==>
      g[r][c] == if Pos(r, c) in coor then MINE else placed[r][c] + NearCount(coor, Pos(r, c), rows, cols)
    ensures MineSet(g, rows, cols) == MineSet(placed, rows, cols) == set p | p in coor
  {
    var listed := set p | p in coor;
    forall p | p in listed ensures p in MineSet(g, rows, cols) && p in MineSet(placed, rows, cols) {
      var i :| 0 <= i < |coor| && coor[i] == p;
    }
    forall p | p in MineSet(g, rows, cols) ensures p in listed {
      assert OnBoard(p, rows, cols);
    }
    forall p | p in MineSet(placed, rows, cols) ensures p in listed {
      assert OnBoard(p, rows, cols);
    }
  }

  /** After the counting pass and the reset every cell that is not a mine holds
      the number of mines around it. */
  lemma CountedMapIsValid(placed: seq<seq<int>>, g: seq<seq<int>>, coor: seq<Pos>, rows: nat, cols: nat)
    requires IsGrid(placed, rows, cols) && IsGrid(g, rows, cols)
    requires forall r, c :: 0 <= r < rows && 0 <= c < cols ==> placed[r][c] == 0 || placed[r][c] == MINE
    requires ListsMines(coor, placed, rows, cols)
    requires forall r, c :: 0 <= r < rows && 0 <= c < cols ==>
      g[r][c] == if Pos(r, c) in coor then MINE else placed[r][c] + NearCount(coor, Pos(r, c), rows, cols)
    ensures MineSet(g, rows, cols) == MineSet(placed, rows, cols) == set p | p in coor
    ensures CountsCorrect(g, rows, cols)
  {
    CountedMines(placed, g, coor, rows, cols);
    forall r, c | 0 <= r < rows && 0 <= c < cols
      ensures g[r][c] == MINE || g[r][c] == AdjacentMines(g, rows, cols, Pos(r, c))
    {
      if Pos(r, c) !in coor {
        NearCountIsBlockCount(coor, Pos(r, c), rows, cols);
      }
    }
  }

  /** The placed board has exactly the mines of the shuffled list, none in the
      safe zone. */
  lemma PlacedMines(markers: seq<int>, b: Border, placed: seq<seq<int>>, rows: nat, cols: nat)
    requires WellPlaced(b, rows, cols) && |markers| == Outside(b, rows, cols)
    requires IsGrid(placed, rows, cols)
    requires forall r, c :: 0 <= r < rows && 0 <= c < cols ==> placed[r][c] == Marker(markers, b, rows, cols, Pos(r, c))
    ensures MineSet(placed, rows, cols) == MarkedMines(markers, b, rows, cols)
    ensures |MineSet(placed, rows, cols)| == multiset(markers)[MINE]
    ensures MineSet(placed, rows, cols) * SafeZone(b) == {}
  {
    MarkedMinesCount(markers, b, rows, cols);
    forall q | q in MarkedMines(markers, b, rows, cols) ensures q in MineSet(placed, rows, cols) {
      MarkedMinesAreMarkers(markers, b, rows, cols, q);
    }
    forall q | q in MineSet(placed, rows, cols) ensures q in MarkedMines(markers, b, rows, cols) && q !in SafeZone(b) {
      MarkedMinesAreMarkers(markers, b, rows, cols, q);
    }
  }

  /** A placed board holds only blanks and mine markers. */
  lemma PlacedValues(markers: seq<int>, b: Border, placed: seq<seq<int>>, rows: nat, cols: nat)
    requires WellPlaced(b, rows, cols) && |markers| == Outside(b, rows, cols)
    requires forall k :: 0 <= k < |markers| ==> markers[k] == MINE || markers[k] == 0
    requires IsGrid(placed, rows, cols)
    requires forall r, c :: 0 <= r < rows && 0 <= c < cols ==> placed[r][c] == Marker(markers, b, rows, cols, Pos(r, c))
    ensures forall r, c :: 0 <= r < rows && 0 <= c < cols ==> placed[r][c] == 0 || placed[r][c] == MINE
  {
    forall r, c | 0 <= r < rows && 0 <= c < cols
      ensures placed[r][c] == 0 || placed[r][c] == MINE
    {
      if Pos(r, c) !in SafeZone(b) {
        FlatIndexInverse(b, rows, cols, Pos(r, c));
      }
    }
  }

  /** `np.argwhere(full_map == 7).size > 0 or np.argwhere(full_map == 8).size > 0`. */
  method HasSevenOrEight(m: array2<int>) returns (found: bool)
    ensures !found <==> forall r, c :: 0 <= r < m.Length0 && 0 <= c < m.Length1 ==> m[r, c] != 7 && m[r, c] != 8
  {
    found := Contains(m, 7);
    if !found {
      found := Contains(m, 8);
    }
  }

  /** What one attempt's placement and listing establish: as many listed mines
      as the shuffled list holds, none in the safe zone. */
  lemma PlacedAndListed(markers: seq<int>, b: Border, placed: seq<seq<int>>, coor: seq<Pos>,
                        rows: nat, cols: nat, mines: int)
    requires WellPlaced(b, rows, cols) && IsMarkerList(markers, mines, Outside(b, rows, cols))
    requires IsGrid(placed, rows, cols)
    requires forall r, c :: 0 <= r < rows && 0 <= c < cols ==> placed[r][c] == Marker(markers, b, rows, cols, Pos(r, c))
    requires ListsMines(coor, placed, rows, cols)
    ensures |coor| == mines
    ensures (set p | p in coor) == MineSet(placed, rows, cols) == MarkedMines(markers, b, rows, cols)
    ensures MineSet(placed, rows, cols) * SafeZone(b) == {}
    ensures forall r, c :: 0 <= r < rows && 0 <= c < cols ==> placed[r][c] == 0 || placed[r][c] == MINE
  {
    PlacedMines(markers, b, placed, rows, cols);
    PlacedValues(markers, b, placed, rows, cols);
    AscendingCard(coor);
    var listed := set p | p in coor;
    forall p | p in listed ensures p in MineSet(placed, rows, cols) {
      var i :| 0 <= i < |coor| && coor[i] == p;
    }
    forall p | p in MineSet(placed, rows, cols) ensures p in listed {
      assert OnBoard(p, rows, cols);
    }
    assert listed == MineSet(placed, rows, cols);
  }

  /** What the counting pass and the reset establish on top of that. */
  lemma CountedAndListed(placed: seq<seq<int>>, g: seq<seq<int>>, coor: seq<Pos>, rows: nat, cols: nat,
                         mines: int, zone: set<Pos>)
    requires IsGrid(placed, rows, cols) && IsGrid(g, rows, cols)
    requires forall r, c :: 0 <= r < rows && 0 <= c < cols ==> placed[r][c] == 0 || placed[r][c] == MINE
    requires ListsMines(coor, placed, rows, cols) && |coor| == mines
    requires (set p | p in coor) == MineSet(placed, rows, cols) && MineSet(placed, rows, cols) * zone == {}
    requires forall r, c :: 0 <= r < rows && 0 <= c < cols ==>
      g[r][c] == if Pos(r, c) in coor then MINE else placed[r][c] + NearCount(coor, Pos(r, c), rows, cols)
    ensures |MineSet(g, rows, cols)| == mines && MineSet(g, rows, cols) * zone == {}
    ensures MineSet(g, rows, cols) == MineSet(placed, rows, cols)
    ensures CountsCorrect(g, rows, cols)
    ensures ListsMines(coor, g, rows, cols)
  {
    CountedMapIsValid(placed, g, coor, rows, cols);
    AscendingCard(coor);
    forall r, c | 0 <= r < rows && 0 <= c < cols && g[r][c] == MINE ensures Pos(r, c) in coor {
      assert Pos(r, c) in MineSet(g, rows, cols);
    }
  }

  /** The board after the counting pass and the reset is the attempt's
      board, with the requested mines and its mine list. */
  lemma ResetIsAttempt(click: Pos, rows: nat, cols: nat, mines: int, markers: seq<int>,
                       placed: seq<seq<int>>, counted: seq<seq<int>>, g: seq<seq<int>>, coor: seq<Pos>)
    requires OnBoard(click, rows, cols)
    requires |markers| == rows * cols - SizeOfStart(ClipBorder(click, rows, cols))
    requires |markers| == Outside(ClipBorder(click, rows, cols), rows, cols)
    requires IsGrid(placed, rows, cols) && IsGrid(counted, rows, cols) && IsGrid(g, rows, cols)
    requires forall r, c :: 0 <= r < rows && 0 <= c < cols ==> placed[r][c] == 0 || placed[r][c] == MINE
    requires ListsMines(coor, placed, rows, cols) && |coor| == mines
    requires (set p | p in coor) == MineSet(placed, rows, cols) == MarkedMines(markers, ClipBorder(click, rows, cols), rows, cols)
    requires MineSet(placed, rows, cols) * SafeZone(ClipBorder(click, rows, cols)) == {}
    requires forall r, c :: 0 <= r < rows && 0 <= c < cols ==>
      counted[r][c] == placed[r][c] + NearCount(coor, Pos(r, c), rows, cols)
    requires forall r, c :: 0 <= r < rows && 0 <= c < cols ==>
      g[r][c] == if Pos(r, c) in coor then MINE else counted[r][c]
    ensures CountedMap(g, rows, cols, mines, click) && ListsMines(coor, g, rows, cols)
    ensures g == Attempt(click, rows, cols, markers)
  {
    forall r, c | 0 <= r < rows && 0 <= c < cols
      ensures g[r][c] == if Pos(r, c) in coor then MINE else placed[r][c] + NearCount(coor, Pos(r, c), rows, cols)
    {
    }
    CountedAndListed(placed, g, coor, rows, cols, mines, SafeZone(ClipBorder(click, rows, cols)));
    IsAttempt(g, click, rows, cols, markers);
  }

  /** One attempt of generate_map up to the opening check: place the shuffled
      markers, list the mines, count, and reset the mines. The reset loop
      iterates with np.nditer, which raises ValueError on an empty mine list. */
  method BuildMap(click: Pos, rows: nat, cols: nat, mines: int, markers: seq<int>) returns (res: Generation)
    requires OnBoard(click, rows, cols) && 0 <= mines
    requires IsMarkerList(markers, mines, rows * cols - SizeOfStart(ClipBorder(click, rows, cols)))
    ensures res.Generated? || res == Raised(ValueError)
    ensures res == Raised(ValueError) <==> mines == 0
    ensures res.Generated? ==>
      && fresh(res.board) && res.board.Length0 == rows && res.board.Length1 == cols
      && CountedMap(Snapshot(res.board), rows, cols, mines, click)
      && ListsMines(res.coor, Snapshot(res.board), rows, cols)
      && |res.coor| == mines
    ensures res.Generated? ==> Snapshot(res.board) == Attempt(click, rows, cols, markers)
  {
    var border := ClipBorder(click, rows, cols);
    RegionsCoverOutside(border, rows, cols);
    var full := Place(markers, border, rows, cols);
    ghost var placed := Snapshot(full);
    var coor := FindMines(full);
    PlacedAndListed(markers, border, placed, coor, rows, cols, mines);
    AddCounts(full, coor);
    ghost var counted := Snapshot(full);
    if |coor| == 0 {
      return Raised(ValueError);
    }
    ResetMines(full, coor);
    ResetIsAttempt(click, rows, cols, mines, markers, placed, counted, Snapshot(full), coor);
    return Generated(full, coor);
  }

  /** generate_map, with its retries as recursion over the supply of shuffles.
      When it returns a board, the board is valid: the requested number of
      mines, none in the clicked cell's block, every count right, accepted by
      the opening check, and no 7 or 8; `coor` lists its mines row-major. */
  method GenerateMap(click: Pos, rows: nat, cols: nat, mines: int, shuffles: seq<seq<int>>) returns (res: Generation)
    requires OnBoard(click, rows, cols)
    requires forall i :: 0 <= i < |shuffles| ==>
      IsMarkerList(shuffles[i], mines, rows * cols - SizeOfStart(ClipBorder(click, rows, cols)))
    ensures res.Generated? ==>
      && fresh(res.board) && res.board.Length0 == rows && res.board.Length1 == cols
      && ValidMap(Snapshot(res.board), rows, cols, mines, click)
      && ListsMines(res.coor, Snapshot(res.board), rows, cols)
      && |res.coor| == mines
    ensures res == Raised(ValueError) <==>
      mines < 0 || rows * cols - mines - SizeOfStart(ClipBorder(click, rows, cols)) < 0
      || (mines == 0 && |shuffles| > 0)
    ensures res == OutOfShuffles ==> |shuffles| == 0 || mines > 0
    ensures res.Generated? ==> mines > 0
    ensures (MarkerListsSized(click, rows, cols, mines, shuffles);
      mines > 0 && rows * cols - mines - SizeOfStart(ClipBorder(click, rows, cols)) >= 0 ==>
      Produced(res, Draw(click, rows, cols, shuffles)))
    decreases |shuffles|, 3
  {
    var border := ClipBorder(click, rows, cols);
    var sizeOfStart := SizeOfStart(border);
    // np.full and np.zeros raise on a negative length
    if mines < 0 || rows * cols - mines - sizeOfStart < 0 {
      return Raised(ValueError);
    }
    if |shuffles| == 0 {
      return OutOfShuffles;
    }
    res := BuildMap(click, rows, cols, mines, shuffles[0]);
    if res.Generated? {
      res := ScreenOpening(click, rows, cols, mines, shuffles, res.board, res.coor);
    }
  }

  /** The first check at the end of generate_map on a counted board: a board
      the opening check rejects is replaced by a fresh attempt; the board kept
      then goes through the check for 7 and 8. */
  method ScreenOpening(click: Pos, rows: nat, cols: nat, mines: int, shuffles: seq<seq<int>>,
                       board: array2<int>, coor: seq<Pos>) returns (res: Generation)
    requires OnBoard(click, rows, cols) && |shuffles| > 0 && mines > 0
    requires rows * cols - mines - SizeOfStart(ClipBorder(click, rows, cols)) >= 0
    requires forall i :: 0 <= i < |shuffles| ==>
      IsMarkerList(shuffles[i], mines, rows * cols - SizeOfStart(ClipBorder(click, rows, cols)))
    requires board.Length0 == rows && board.Length1 == cols
    requires CountedMap(Snapshot(board), rows, cols, mines, click)
    requires ListsMines(coor, Snapshot(board), rows, cols) && |coor| == mines
    requires (MarkerListsSized(click, rows, cols, mines, shuffles);
      Snapshot(board) == Attempt(click, rows, cols, shuffles[0]))
    ensures res.Generated? ==>
      && (fresh(res.board) || res.board == board) && res.board.Length0 == rows && res.board.Length1 == cols
      && ValidMap(Snapshot(res.board), rows, cols, mines, click)
      && ListsMines(res.coor, Snapshot(res.board), rows, cols)
      && |res.coor| == mines
    ensures res != Raised(ValueError)
    ensures (MarkerListsSized(click, rows, cols, mines, shuffles);
      Produced(res, Draw(click, rows, cols, shuffles)))
    decreases |shuffles|, 2
  {
    var solvable := IsMapSolvable(board, click);
    if solvable.None? {
      return Raised(IndexError);
    }
    if !solvable.value {
      res := Retry(click, rows, cols, mines, shuffles);
      if res.Generated? {
        res := ScreenCounts(click, rows, cols, mines, shuffles, res.board, res.coor);
      }
    } else {
      res := ScreenCounts(click, rows, cols, mines, shuffles, board, coor);
    }
  }

  /** The second check at the end of generate_map: a board holding a 7 or an
      8 is replaced by a fresh attempt. */
  method ScreenCounts(click: Pos, rows: nat, cols: nat, mines: int, shuffles: seq<seq<int>>,
                      board: array2<int>, coor: seq<Pos>) returns (res: Generation)
    requires OnBoard(click, rows, cols) && |shuffles| > 0 && mines > 0
    requires rows * cols - mines - SizeOfStart(ClipBorder(click, rows, cols)) >= 0
    requires forall i :: 0 <= i < |shuffles| ==>
      IsMarkerList(shuffles[i], mines, rows * cols - SizeOfStart(ClipBorder(click, rows, cols)))
    requires board.Length0 == rows && board.Length1 == cols
    requires CountedMap(Snapshot(board), rows, cols, mines, click)
    requires WalkVerdict(Snapshot(board), rows, cols, click) == Some(true)
    requires ListsMines(coor, Snapshot(board), rows, cols) && |coor| == mines
    ensures res.Generated? ==>
      && (fresh(res.board) || res.board == board) && res.board.Length0 == rows && res.board.Length1 == cols
      && ValidMap(Snapshot(res.board), rows, cols, mines, click)
      && ListsMines(res.coor, Snapshot(res.board), rows, cols)
      && |res.coor| == mines
    ensures res != Raised(ValueError)
    ensures NoSevenOrEight(Snapshot(board), rows, cols) ==> res == Generated(board, coor)
    ensures (MarkerListsSized(click, rows, cols, mines, shuffles);
      !NoSevenOrEight(Snapshot(board), rows, cols) ==> Produced(res, Draw(click, rows, cols, shuffles[1..])))
    decreases |shuffles|, 1
  {
    var sevenOrEight := HasSevenOrEight(board);
    if sevenOrEight {
      res := Retry(click, rows, cols, mines, shuffles);
    } else {
      res := Generated(board, coor);
    }
  }

  /** The recursive `generate_map` call that replaces a rejected board: a
      fresh attempt on the remaining shuffles. */
  method Retry(click: Pos, rows: nat, cols: nat, mines: int, shuffles: seq<seq<int>>) returns (res: Generation)
    requires OnBoard(click, rows, cols) && |shuffles| > 0 && mines > 0
    requires rows * cols - mines - SizeOfStart(ClipBorder(click, rows, cols)) >= 0
    requires forall i :: 0 <= i < |shuffles| ==>
      IsMarkerList(shuffles[i], mines, rows * cols - SizeOfStart(ClipBorder(click, rows, cols)))
    ensures res.Generated? ==>
      && fresh(res.board) && res.board.Length0 == rows && res.board.Length1 == cols
      && ValidMap(Snapshot(res.board), rows, cols, mines, click)
      && ListsMines(res.coor, Snapshot(res.board), rows, cols)
      && |res.coor| == mines
    ensures res != Raised(ValueError)
    ensures (MarkerListsSized(click, rows, cols, mines, shuffles);
      Produced(res, Draw(click, rows, cols, shuffles[1..])))
    decreases |shuffles|, 0
  {
    res := GenerateMap(click, rows, cols, mines, shuffles[1..]);
  }

  // Consequences for the game.

  /** The clicked cell of a generated map is blank, so the first click always
      opens an area. */
  lemma ClickIsBlank(g: seq<seq<int>>, rows: nat, cols: nat, mines: int, click: Pos)
    requires IsGrid(g, rows, cols) && CountedMap(g, rows, cols, mines, click) && OnBoard(click, rows, cols)
    ensures g[click.row][click.col] == 0
  {
    var hits := Block(click, rows, cols) * MineSet(g, rows, cols);
    assert hits == MineSet(g, rows, cols) * Block(click, rows, cols) == {};
    assert click in Block(click, rows, cols) && click !in hits;
    assert g[click.row][click.col] == |hits|;
  }

  /** What the game relies on in a map and its mine list: no blank touches a
      mine, every cell is a mine or a count 0..6 (an index into the seven
      number images), and the list names every mine and is not empty. */
  ghost predicate PlayableMap(g: seq<seq<int>>, coor: seq<Pos>, rows: nat, cols: nat) {
    && IsGrid(g, rows, cols)
    && BlanksIsolated(g, rows, cols)
    && ListsMines(coor, g, rows, cols)
    && |coor| > 0
    && (forall r, c :: 0 <= r < rows && 0 <= c < cols ==> MINE <= g[r][c] <= 6)
  }

  /** A map generate_map returns is playable, its clicked cell is blank and its
      mines number as requested. */
  lemma ValidMapIsPlayable(g: seq<seq<int>>, coor: seq<Pos>, rows: nat, cols: nat, mines: int, click: Pos)
    requires IsGrid(g, rows, cols) && ValidMap(g, rows, cols, mines, click) && OnBoard(click, rows, cols)
    requires ListsMines(coor, g, rows, cols) && |coor| == mines && mines > 0
    ensures PlayableMap(g, coor, rows, cols)
    ensures g[click.row][click.col] == 0
    ensures |MineSet(g, rows, cols)| == mines
  {
    ClickIsBlank(g, rows, cols, mines, click);
    CountsHaveTiles(g, rows, cols, mines, click);
    CountsIsolateBlanks(g, rows, cols);
  }

  /** A clipped 3x3 block has at most 9 cells. */
  lemma BlockCard(q: Pos, rows: nat, cols: nat)
    requires OnBoard(q, rows, cols)
    ensures q in Block(q, rows, cols) && |Block(q, rows, cols)| <= 9
  {
    BlockIsClippedSlice(q, rows, cols);
    var h, w := ClipHigh(q.row, rows) - ClipLow(q.row), ClipHigh(q.col, cols) - ClipLow(q.col);
    RectCard(ClipLow(q.row), ClipHigh(q.row, rows), ClipLow(q.col), ClipHigh(q.col, cols));
    MulMono(h, 3, w);
    MulMono(w, 3, 3);
  }

  /** Every cell of a generated map is a mine or a count that `number_tile` has
      an image for (0 to 6): a non-mine cell has at most 8 mines around it, and
      7 and 8 are rejected. */
  lemma CountsHaveTiles(g: seq<seq<int>>, rows: nat, cols: nat, mines: int, click: Pos)
    requires IsGrid(g, rows, cols) && ValidMap(g, rows, cols, mines, click)
    ensures forall r, c :: 0 <= r < rows && 0 <= c < cols ==> g[r][c] == MINE || 0 <= g[r][c] <= 6
  {
    forall r, c | 0 <= r < rows && 0 <= c < cols && g[r][c] != MINE
      ensures g[r][c] <= 8
    {
      CountAtMostEight(g, rows, cols, Pos(r, c));
    }
  }

  /** A cell that is not a mine is not in its own count, so it sees at most the
      8 other cells of its block. */
  lemma CountAtMostEight(g: seq<seq<int>>, rows: nat, cols: nat, q: Pos)
    requires IsGrid(g, rows, cols) && CountsCorrect(g, rows, cols)
    requires OnBoard(q, rows, cols) && g[q.row][q.col] != MINE
    ensures g[q.row][q.col] <= 8
  {
    BlockCard(q, rows, cols);
    var hits := Block(q, rows, cols) * MineSet(g, rows, cols);
    assert g[q.row][q.col] == |hits|;
    SubsetCard(hits, Block(q, rows, cols) - {q});
  }
}
