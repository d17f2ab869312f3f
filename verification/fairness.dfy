/** The opening "fairness" check, is_map_solvable: a walk from the clicked cell
    around the zero region that touches it, anticlockwise (up to the top, then
    left, down, right, up and left again), which accepts the map as soon as a
    diagonal cell of the walk holds 0 and rejects it when the walk closes on the
    row it started from. The walk indexes the numpy grid without bounds checks:
    a negative index wraps around to the far side, and an index past the end
    raises IndexError. */
module Fairness {
  import opened Board

  datatype Option<T> = None | Some(value: T)

  datatype Dir = Up | Down | Left | Right

  /** The cell k steps from p in direction d. */
  function Move(p: Pos, d: Dir, k: int): Pos {
    match d
    case Up => Pos(p.row - k, p.col)
    case Down => Pos(p.row + k, p.col)
    case Left => Pos(p.row, p.col - k)
    case Right => Pos(p.row, p.col + k)
  }

  function Step(p: Pos, d: Dir): Pos {
    Move(p, d, 1)
  }

  /** How many steps in direction d lead from `from` to `to`. */
  function Steps(from: Pos, to: Pos, d: Dir): int {
    match d
    case Up => from.row - to.row
    case Down => to.row - from.row
    case Left => from.col - to.col
    case Right => to.col - from.col
  }

  /** A numpy index on an axis of length n: -n..-1 counts from the end. */
  function Wrap(i: int, n: int): int {
    if i < 0 then i + n else i
  }

  /** `plane[p.row, p.col]` on a rows-by-cols grid: None is the IndexError numpy
      raises for an index outside -n..n-1. */
  function At(g: seq<seq<int>>, rows: nat, cols: nat, p: Pos): Option<int>
    requires IsGrid(g, rows, cols)
  {
    if -(rows as int) <= p.row < rows && -(cols as int) <= p.col < cols then
      Some(g[Wrap(p.row, rows)][Wrap(p.col, cols)])
    else
      None
  }

  /** numpy's indexing rule: an index i on an axis of length n is accepted
      when -n <= i < n and then reads position i mod n (so -1 is the last row
      or column); any other index raises IndexError. */
  lemma AtWraps(g: seq<seq<int>>, rows: nat, cols: nat, p: Pos)
    requires IsGrid(g, rows, cols)
    ensures At(g, rows, cols, p).Some? <==> -(rows as int) <= p.row < rows && -(cols as int) <= p.col < cols
    ensures At(g, rows, cols, p).Some? ==>
      rows > 0 && cols > 0 && At(g, rows, cols, p).value == g[p.row % rows][p.col % cols]
  {
    if -(rows as int) <= p.row < rows && -(cols as int) <= p.col < cols {
      WrapIsMod(p.row, rows);
      WrapIsMod(p.col, cols);
    }
  }

  /** On -n..n-1, adding n to a negative index is taking it modulo n. */
  lemma WrapIsMod(i: int, n: int)
    requires -n <= i < n
    ensures 0 <= Wrap(i, n) < n && Wrap(i, n) == i % n
  {
    if i < 0 {
      assert i == (i + n) + (-1) * n;
    }
  }

  /** The lookup succeeded and found something other than 0. */
  predicate NonZero(v: Option<int>) {
    v.Some? && v.value != 0
  }

  /** How far the walk can still go in direction d before numpy raises. */
  function Room(p: Pos, d: Dir, rows: nat, cols: nat): nat {
    var n := match d
      case Up => p.row + rows
      case Down => rows - p.row
      case Left => p.col + cols
      case Right => cols - p.col;
    if n < 0 then 0 else n
  }

  /** The first loop, `while plane[cur + d] == 0: cur += d`: Some(where it
      stops), or None when a lookup raises. */
  function Climb(g: seq<seq<int>>, rows: nat, cols: nat, cur: Pos, d: Dir): (r: Option<Pos>)
    requires IsGrid(g, rows, cols)
    ensures r.Some? ==> NonZero(At(g, rows, cols, Step(r.value, d)))
    ensures r.Some? ==> r.value == cur || At(g, rows, cols, r.value) == Some(0)
    decreases Room(cur, d, rows, cols)
  {
    match At(g, rows, cols, Step(cur, d))
    case None => None
    case Some(v) =>
      if v != 0 then Some(cur) else Climb(g, rows, cols, Step(cur, d), d)
  }

  /** What a checking loop of the walk ends with. */
  datatype Slide = Stopped(at: Pos) | Diagonal | OutOfRange

  /** The later loops, `while plane[cur + d] == 0: cur += d; if plane[cur + e]
      == 0: return True`. */
  function SlideChecking(g: seq<seq<int>>, rows: nat, cols: nat, cur: Pos, d: Dir, e: Dir): (s: Slide)
    requires IsGrid(g, rows, cols)
    ensures s.Stopped? ==> NonZero(At(g, rows, cols, Step(s.at, d)))
    ensures s.Stopped? ==> s.at == cur || (At(g, rows, cols, s.at) == Some(0) && NonZero(At(g, rows, cols, Step(s.at, e))))
    decreases Room(cur, d, rows, cols)
  {
    match At(g, rows, cols, Step(cur, d))
    case None => OutOfRange
    case Some(v) =>
      if v != 0 then Stopped(cur)
      else
        var next := Step(cur, d);
        match At(g, rows, cols, Step(next, e))
        case None => OutOfRange
        case Some(w) => if w == 0 then Diagonal else SlideChecking(g, rows, cols, next, d, e)
  }

  /** A leg of the walk: either the verdict is already known, or the walk
      continues from the given cell. */
  datatype Leg = Decided(verdict: Option<bool>) | Continue(at: Pos)

  /** One checking loop followed by the single check of the corner cell
      diagonally beyond where it stopped (direction d1 then d2). */
  function RunLeg(g: seq<seq<int>>, rows: nat, cols: nat, cur: Pos, d: Dir, e: Dir, d1: Dir, d2: Dir): (l: Leg)
    requires IsGrid(g, rows, cols)
    ensures l.Decided? ==> l.verdict != Some(false)
    ensures l.Continue? ==> NonZero(At(g, rows, cols, Step(l.at, d))) && NonZero(At(g, rows, cols, Step(Step(l.at, d1), d2)))
  {
    match SlideChecking(g, rows, cols, cur, d, e)
    case OutOfRange => Decided(None)
    case Diagonal => Decided(Some(true))
    case Stopped(p) =>
      match At(g, rows, cols, Step(Step(p, d1), d2))
      case None => Decided(None)
      case Some(w) => if w == 0 then Decided(Some(true)) else Continue(p)
  }

  /** The verdict of is_map_solvable on grid g clicked at `start`: Some(true)
      accepts, Some(false) rejects, None is an IndexError. */
  function WalkVerdict(g: seq<seq<int>>, rows: nat, cols: nat, start: Pos): Option<bool>
    requires IsGrid(g, rows, cols)
  {
    match Climb(g, rows, cols, start, Up)
    case None => None
    case Some(p1) =>
      match RunLeg(g, rows, cols, p1, Left, Up, Up, Left)
      case Decided(v) => v
      case Continue(p2) =>
        match RunLeg(g, rows, cols, p2, Down, Left, Down, Left)
        case Decided(v) => v
        case Continue(p3) =>
          match RunLeg(g, rows, cols, p3, Right, Down, Down, Right)
          case Decided(v) => v
          case Continue(p4) =>
            match RunLeg(g, rows, cols, p4, Up, Right, Up, Right)
            case Decided(v) => v
            case Continue(p5) =>
              match SlideChecking(g, rows, cols, p5, Left, Up)
              case OutOfRange => None
              case Diagonal => Some(true)
              case Stopped(p6) => Some(p6.row != p1.row)
  }

  /** is_map_solvable returns False only at its very end: the climb and every
      leg ran without raising, no diagonal check found a 0, and the final
      loop stopped on the row the climb reached (`top_idx`). */
  lemma WalkRejectsOnlyOnClosing(g: seq<seq<int>>, rows: nat, cols: nat, start: Pos)
    requires IsGrid(g, rows, cols) && WalkVerdict(g, rows, cols, start) == Some(false)
    ensures Climb(g, rows, cols, start, Up).Some?
    ensures
      var p1 := Climb(g, rows, cols, start, Up).value;
      var l1 := RunLeg(g, rows, cols, p1, Left, Up, Up, Left);
      l1.Continue? &&
      var l2 := RunLeg(g, rows, cols, l1.at, Down, Left, Down, Left);
      l2.Continue? &&
      var l3 := RunLeg(g, rows, cols, l2.at, Right, Down, Down, Right);
      l3.Continue? &&
      var l4 := RunLeg(g, rows, cols, l3.at, Up, Right, Up, Right);
      l4.Continue? &&
      var last := SlideChecking(g, rows, cols, l4.at, Left, Up);
      last.Stopped? && last.at.row == p1.row
  {
  }

  /** `plane[p]` read from the array, with numpy's wrap-around and IndexError. */
  function Get(plane: array2<int>, p: Pos): (v: Option<int>)
    reads plane
    ensures v == At(Snapshot(plane), plane.Length0, plane.Length1, p)
  {
    var rows, cols := plane.Length0, plane.Length1;
    if -rows <= p.row < rows && -cols <= p.col < cols then
      Some(plane[Wrap(p.row, rows), Wrap(p.col, cols)])
    else
      None
  }

  /** One checking loop of is_map_solvable, run on the array. */
  method SlideAlong(plane: array2<int>, start: Pos, d: Dir, e: Dir) returns (s: Slide)
    ensures s == SlideChecking(Snapshot(plane), plane.Length0, plane.Length1, start, d, e)
  {
    ghost var g := Snapshot(plane);
    var rows, cols := plane.Length0, plane.Length1;
    var cur := start;
    var v := Get(plane, Step(cur, d));
    while v == Some(0)
      invariant v == At(g, rows, cols, Step(cur, d))
      invariant SlideChecking(g, rows, cols, cur, d, e) == SlideChecking(g, rows, cols, start, d, e)
      decreases Room(cur, d, rows, cols)
    {
      cur := Step(cur, d);
      var w := Get(plane, Step(cur, e));
      if w == None {
        return OutOfRange;
      }
      if w == Some(0) {
        return Diagonal;
      }
      v := Get(plane, Step(cur, d));
    }
    if v == None {
      return OutOfRange;
    }
    return Stopped(cur);
  }

  /** is_map_solvable: reads `plane` and never writes it; its answer is the
      walk's verdict. */
  method IsMapSolvable(plane: array2<int>, position: Pos) returns (res: Option<bool>)
    ensures res == WalkVerdict(Snapshot(plane), plane.Length0, plane.Length1, position)
  {
    ghost var g := Snapshot(plane);
    var rows, cols := plane.Length0, plane.Length1;
    var cur := position;
    // move to the top
    var v := Get(plane, Step(cur, Up));
    while v == Some(0)
      invariant v == At(g, rows, cols, Step(cur, Up))
      invariant Climb(g, rows, cols, cur, Up) == Climb(g, rows, cols, position, Up)
      decreases Room(cur, Up, rows, cols)
    {
      cur := Step(cur, Up);
      v := Get(plane, Step(cur, Up));
    }
    if v == None {
      return None;
    }
    var top := cur.row;
    ghost var p1 := cur;
    assert Climb(g, rows, cols, position, Up) == Some(p1);

    // move to the left, checking the cell above
    var s := SlideAlong(plane, cur, Left, Up);
    if s.OutOfRange? {
      return None;
    } else if s.Diagonal? {
      return Some(true);
    }
    cur := s.at;
    var w := Get(plane, Step(Step(cur, Up), Left));
    if w == None {
      return None;
    } else if w == Some(0) {
      return Some(true);
    }
    ghost var p2 := cur;
    assert RunLeg(g, rows, cols, p1, Left, Up, Up, Left) == Continue(p2);

    // move to the bottom, checking the cell on the left
    s := SlideAlong(plane, cur, Down, Left);
    if s.OutOfRange? {
      return None;
    } else if s.Diagonal? {
      return Some(true);
    }
    cur := s.at;
    w := Get(plane, Step(Step(cur, Down), Left));
    if w == None {
      return None;
    } else if w == Some(0) {
      return Some(true);
    }
    ghost var p3 := cur;
    assert RunLeg(g, rows, cols, p2, Down, Left, Down, Left) == Continue(p3);

    // move to the right, checking the cell below
    s := SlideAlong(plane, cur, Right, Down);
    if s.OutOfRange? {
      return None;
    } else if s.Diagonal? {
      return Some(true);
    }
    cur := s.at;
    w := Get(plane, Step(Step(cur, Down), Right));
    if w == None {
      return None;
    } else if w == Some(0) {
      return Some(true);
    }
    ghost var p4 := cur;
    assert RunLeg(g, rows, cols, p3, Right, Down, Down, Right) == Continue(p4);

    // move to the top, checking the cell on the right
    s := SlideAlong(plane, cur, Up, Right);
    if s.OutOfRange? {
      return None;
    } else if s.Diagonal? {
      return Some(true);
    }
    cur := s.at;
    w := Get(plane, Step(Step(cur, Up), Right));
    if w == None {
      return None;
    } else if w == Some(0) {
      return Some(true);
    }
    assert RunLeg(g, rows, cols, p4, Up, Right, Up, Right) == Continue(cur);

    // move to the left, checking the cell above
    s := SlideAlong(plane, cur, Left, Up);
    if s.OutOfRange? {
      return None;
    } else if s.Diagonal? {
      return Some(true);
    }
    cur := s.at;
    if cur.row != top {
      return Some(true);
    }
    return Some(false);
  }

  // What the walk establishes about the cells it passes.

  /** Where the climb stops: every cell it stepped onto holds 0, and the next one
      up is on the grid (numpy did not raise) and is not 0. */
  lemma {:induction false} ClimbStops(g: seq<seq<int>>, rows: nat, cols: nat, cur: Pos, d: Dir, q: Pos)
    requires IsGrid(g, rows, cols)
    requires Climb(g, rows, cols, cur, d) == Some(q)
    ensures Steps(cur, q, d) >= 0 && q == Move(cur, d, Steps(cur, q, d))
    ensures forall i :: 1 <= i <= Steps(cur, q, d) ==> At(g, rows, cols, Move(cur, d, i)) == Some(0)
    ensures NonZero(At(g, rows, cols, Step(q, d)))
    decreases Room(cur, d, rows, cols)
  {
    var next := Step(cur, d);
    if At(g, rows, cols, next) == Some(0) {
      ClimbStops(g, rows, cols, next, d, q);
      forall i | 1 <= i <= Steps(cur, q, d)
        ensures At(g, rows, cols, Move(cur, d, i)) == Some(0)
      {
        if i > 1 {
          assert Move(cur, d, i) == Move(next, d, i - 1);
        }
      }
    }
  }

  /** Where a checking loop stops: every cell it stepped onto holds 0, every
      cell it checked beside them does not, and the next cell along does not. */
  lemma {:induction false} SlideStops(g: seq<seq<int>>, rows: nat, cols: nat, cur: Pos, d: Dir, e: Dir, q: Pos)
    requires IsGrid(g, rows, cols)
    requires SlideChecking(g, rows, cols, cur, d, e) == Stopped(q)
    ensures Steps(cur, q, d) >= 0 && q == Move(cur, d, Steps(cur, q, d))
    ensures forall i :: 1 <= i <= Steps(cur, q, d) ==>
      At(g, rows, cols, Move(cur, d, i)) == Some(0) && NonZero(At(g, rows, cols, Step(Move(cur, d, i), e)))
    ensures NonZero(At(g, rows, cols, Step(q, d)))
    decreases Room(cur, d, rows, cols)
  {
    var next := Step(cur, d);
    if At(g, rows, cols, next) == Some(0) {
      SlideStops(g, rows, cols, next, d, e, q);
      forall i | 1 <= i <= Steps(cur, q, d)
        ensures At(g, rows, cols, Move(cur, d, i)) == Some(0)
        ensures NonZero(At(g, rows, cols, Step(Move(cur, d, i), e)))
      {
        if i > 1 {
          assert Move(cur, d, i) == Move(next, d, i - 1);
        }
      }
    }
  }

  /** Conversely, a run of k zero cells ending at a non-zero one stops the climb
      after exactly k steps. */
  lemma {:induction false} ClimbRuns(g: seq<seq<int>>, rows: nat, cols: nat, cur: Pos, d: Dir, k: nat)
    requires IsGrid(g, rows, cols)
    requires forall i :: 1 <= i <= k ==> At(g, rows, cols, Move(cur, d, i)) == Some(0)
    requires NonZero(At(g, rows, cols, Move(cur, d, k + 1)))
    ensures Climb(g, rows, cols, cur, d) == Some(Move(cur, d, k))
    decreases k
  {
    var next := Step(cur, d);
    if k > 0 {
      assert At(g, rows, cols, Move(cur, d, 1)) == Some(0);
      forall i | 1 <= i <= k - 1 ensures At(g, rows, cols, Move(next, d, i)) == Some(0) {
        assert Move(next, d, i) == Move(cur, d, i + 1);
      }
      assert Move(next, d, k) == Move(cur, d, k + 1);
      ClimbRuns(g, rows, cols, next, d, k - 1);
      assert Move(next, d, k - 1) == Move(cur, d, k);
    }
  }

  /** A run of k zero cells with non-zero cells beside them, ending at a
      non-zero one, stops a checking loop after exactly k steps. */
  lemma {:induction false} SlideRuns(g: seq<seq<int>>, rows: nat, cols: nat, cur: Pos, d: Dir, e: Dir, k: nat)
    requires IsGrid(g, rows, cols)
    requires forall i :: 1 <= i <= k ==>
      At(g, rows, cols, Move(cur, d, i)) == Some(0) && NonZero(At(g, rows, cols, Step(Move(cur, d, i), e)))
    requires NonZero(At(g, rows, cols, Move(cur, d, k + 1)))
    ensures SlideChecking(g, rows, cols, cur, d, e) == Stopped(Move(cur, d, k))
    decreases k
  {
    var next := Step(cur, d);
    if k > 0 {
      assert At(g, rows, cols, Move(cur, d, 1)) == Some(0);
      assert NonZero(At(g, rows, cols, Step(Move(cur, d, 1), e)));
      forall i | 1 <= i <= k - 1
        ensures At(g, rows, cols, Move(next, d, i)) == Some(0)
        ensures NonZero(At(g, rows, cols, Step(Move(next, d, i), e)))
      {
        assert Move(next, d, i) == Move(cur, d, i + 1);
      }
      assert Move(next, d, k) == Move(cur, d, k + 1);
      SlideRuns(g, rows, cols, next, d, e, k - 1);
      assert Move(next, d, k - 1) == Move(cur, d, k);
    }
  }

  /** The zero cells around the click form exactly the rectangle of rows t..b
      and columns l..r, and every cell of the ring around it (the rectangle's
      border one step out, corners included) is non-zero; the ring lies on the
      board. */
  predicate IsolatedZeroRect(g: seq<seq<int>>, rows: nat, cols: nat, t: int, l: int, b: int, r: int)
    requires IsGrid(g, rows, cols)
  {
    && 1 <= t <= b <= rows - 2 && 1 <= l <= r <= cols - 2
    && (forall i, j :: t <= i <= b && l <= j <= r ==> g[i][j] == 0)
    && (forall i, j :: t - 1 <= i <= b + 1 && l - 1 <= j <= r + 1 && !(t <= i <= b && l <= j <= r) ==>
          g[i][j] != 0)
  }

  // The five legs of the walk round an isolated rectangle, one lemma each.

  lemma ClimbToTop(g: seq<seq<int>>, rows: nat, cols: nat, start: Pos, t: int, l: int, b: int, r: int)
    requires IsGrid(g, rows, cols) && IsolatedZeroRect(g, rows, cols, t, l, b, r)
    requires t <= start.row <= b && l <= start.col <= r
    ensures Climb(g, rows, cols, start, Up) == Some(Pos(t, start.col))
  {
    forall i | 1 <= i <= start.row - t ensures At(g, rows, cols, Move(start, Up, i)) == Some(0) {
      assert g[start.row - i][start.col] == 0;
    }
    assert g[t - 1][start.col] != 0;
    ClimbRuns(g, rows, cols, start, Up, start.row - t);
  }

  lemma LeftAlongTop(g: seq<seq<int>>, rows: nat, cols: nat, c: int, t: int, l: int, b: int, r: int)
    requires IsGrid(g, rows, cols) && IsolatedZeroRect(g, rows, cols, t, l, b, r)
    requires l <= c <= r
    ensures SlideChecking(g, rows, cols, Pos(t, c), Left, Up) == Stopped(Pos(t, l))
  {
    var p := Pos(t, c);
    forall i | 1 <= i <= c - l
      ensures At(g, rows, cols, Move(p, Left, i)) == Some(0)
      ensures NonZero(At(g, rows, cols, Step(Move(p, Left, i), Up)))
    {
      assert g[t][c - i] == 0;
      assert g[t - 1][c - i] != 0;
    }
    assert g[t][l - 1] != 0;
    SlideRuns(g, rows, cols, p, Left, Up, c - l);
  }

  lemma DownAlongLeft(g: seq<seq<int>>, rows: nat, cols: nat, t: int, l: int, b: int, r: int)
    requires IsGrid(g, rows, cols) && IsolatedZeroRect(g, rows, cols, t, l, b, r)
    ensures SlideChecking(g, rows, cols, Pos(t, l), Down, Left) == Stopped(Pos(b, l))
  {
    var p := Pos(t, l);
    forall i | 1 <= i <= b - t
      ensures At(g, rows, cols, Move(p, Down, i)) == Some(0)
      ensures NonZero(At(g, rows, cols, Step(Move(p, Down, i), Left)))
    {
      assert g[t + i][l] == 0;
      assert g[t + i][l - 1] != 0;
    }
    assert g[b + 1][l] != 0;
    SlideRuns(g, rows, cols, p, Down, Left, b - t);
  }

  lemma RightAlongBottom(g: seq<seq<int>>, rows: nat, cols: nat, t: int, l: int, b: int, r: int)
    requires IsGrid(g, rows, cols) && IsolatedZeroRect(g, rows, cols, t, l, b, r)
    ensures SlideChecking(g, rows, cols, Pos(b, l), Right, Down) == Stopped(Pos(b, r))
  {
    var p := Pos(b, l);
    forall i | 1 <= i <= r - l
      ensures At(g, rows, cols, Move(p, Right, i)) == Some(0)
      ensures NonZero(At(g, rows, cols, Step(Move(p, Right, i), Down)))
    {
      assert g[b][l + i] == 0;
      assert g[b + 1][l + i] != 0;
    }
    assert g[b][r + 1] != 0;
    SlideRuns(g, rows, cols, p, Right, Down, r - l);
  }

  lemma UpAlongRight(g: seq<seq<int>>, rows: nat, cols: nat, t: int, l: int, b: int, r: int)
    requires IsGrid(g, rows, cols) && IsolatedZeroRect(g, rows, cols, t, l, b, r)
    ensures SlideChecking(g, rows, cols, Pos(b, r), Up, Right) == Stopped(Pos(t, r))
  {
    var p := Pos(b, r);
    forall i | 1 <= i <= b - t
      ensures At(g, rows, cols, Move(p, Up, i)) == Some(0)
      ensures NonZero(At(g, rows, cols, Step(Move(p, Up, i), Right)))
    {
      assert g[b - i][r] == 0;
      assert g[b - i][r + 1] != 0;
    }
    assert g[t - 1][r] != 0;
    SlideRuns(g, rows, cols, p, Up, Right, b - t);
  }

  /** The purpose of the check: when the opening around the click is a plain
      rectangle away from the board's edges, the walk goes once round it,
      finds no zero on a diagonal, closes on the top row, and rejects the map. */
  lemma RectangularOpeningRejected(g: seq<seq<int>>, rows: nat, cols: nat, start: Pos,
                                   t: int, l: int, b: int, r: int)
    requires IsGrid(g, rows, cols) && IsolatedZeroRect(g, rows, cols, t, l, b, r)
    requires t <= start.row <= b && l <= start.col <= r
    ensures WalkVerdict(g, rows, cols, start) == Some(false)
  {
    ClimbToTop(g, rows, cols, start, t, l, b, r);
    LeftAlongTop(g, rows, cols, start.col, t, l, b, r);
    assert g[t - 1][l - 1] != 0;
    assert RunLeg(g, rows, cols, Pos(t, start.col), Left, Up, Up, Left) == Continue(Pos(t, l));
    DownAlongLeft(g, rows, cols, t, l, b, r);
    assert g[b + 1][l - 1] != 0;
    assert RunLeg(g, rows, cols, Pos(t, l), Down, Left, Down, Left) == Continue(Pos(b, l));
    RightAlongBottom(g, rows, cols, t, l, b, r);
    assert g[b + 1][r + 1] != 0;
    assert RunLeg(g, rows, cols, Pos(b, l), Right, Down, Down, Right) == Continue(Pos(b, r));
    UpAlongRight(g, rows, cols, t, l, b, r);
    assert g[t - 1][r + 1] != 0;
    assert RunLeg(g, rows, cols, Pos(b, r), Up, Right, Up, Right) == Continue(Pos(t, r));
    LeftAlongTop(g, rows, cols, r, t, l, b, r);
  }

  /** So a map the check accepts never has such a rectangle around the click. */
  lemma AcceptedOpeningIsNotRectangle(g: seq<seq<int>>, rows: nat, cols: nat, start: Pos)
    requires IsGrid(g, rows, cols) && WalkVerdict(g, rows, cols, start) == Some(true)
    ensures forall t, l, b, r :: t <= start.row <= b && l <= start.col <= r ==>
      !IsolatedZeroRect(g, rows, cols, t, l, b, r)
  {
    forall t, l, b, r | t <= start.row <= b && l <= start.col <= r
      ensures !IsolatedZeroRect(g, rows, cols, t, l, b, r)
    {
      if IsolatedZeroRect(g, rows, cols, t, l, b, r) {
        RectangularOpeningRejected(g, rows, cols, start, t, l, b, r);
      }
    }
  }
}
