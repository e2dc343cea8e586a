/** Board topology of an n-by-n toggle grid: cells are numbered row-major,
    and pressing a cell toggles that cell and its orthogonal neighbours that
    lie on the board. */
module Grid {

  /** Flat row-major index of the cell in row `r`, column `c`. */
  function CellIndex(r: int, c: int, n: int): int {
    r * n + c
  }

  /** Row and column of flat index `idx`: Python's `idx // n, idx % n`,
      which for a positive `n` are floor division and a remainder in `[0, n)`,
      exactly Dafny's `/` and `%`. */
  function ToCoord(idx: int, n: int): (rc: (int, int))
    requires n > 0
    ensures CellIndex(rc.0, rc.1, n) == idx
    ensures 0 <= rc.1 < n
    ensures 0 <= idx < n * n ==> 0 <= rc.0 < n
  {
    var r, c := idx / n, idx % n;
    if 0 <= idx < n * n then
      RowBelowSide(r, c, n, idx);
      (r, c)
    else
      (r, c)
  }

  /** A row number whose cells start before `n * n` is below `n`. */
  lemma RowBelowSide(r: int, c: int, n: int, idx: int)
    requires n > 0 && 0 <= c < n && idx == r * n + c && 0 <= idx < n * n
    ensures 0 <= r < n
  {
  }

  /** The coordinates of a flat index are the only ones that give it back. */
  lemma {:induction false} ToCoordRoundTrip(r: int, c: int, n: int)
    requires n > 0 && 0 <= c < n
    ensures ToCoord(CellIndex(r, c, n), n) == (r, c)
  {
    var idx := CellIndex(r, c, n);
    var (q, m) := ToCoord(idx, n);
    assert (r - q) * n == m - c;
    MultipleOfSide(r - q, n);
  }

  /** A nonzero multiple of a positive `n` is at least `n` away from zero. */
  lemma MultipleOfSide(k: int, n: int)
    requires n > 0
    ensures k >= 1 ==> k * n >= n
    ensures k <= -1 ==> k * n <= -n
  {
  }

  /** A cell on the board has a flat index in `[0, n * n)`. */
  lemma OnBoardIndex(r: int, c: int, n: int)
    requires 0 <= r < n && 0 <= c < n
    ensures 0 <= CellIndex(r, c, n) < n * n
  {
    assert r * n <= (n - 1) * n;
  }

  /** The flat index of candidate cell `(a, b)` as a list of one element
      when it is on the board, and the empty list when it is not. */
  function Kept(a: int, b: int, n: int): seq<int> {
    if 0 <= a < n && 0 <= b < n then [CellIndex(a, b, n)] else []
  }

  /** The cells pressing `idx` toggles: the candidates above, left, itself,
      right and below, in that order, keeping those on the board. */
  function ChangeElements(idx: int, n: int): (cells: seq<int>)
    requires n > 0
    ensures forall k :: 0 <= k < |cells| ==> 0 <= cells[k] < n * n
    ensures 0 <= idx < n * n ==> idx in cells
  {
    var (x, y) := ToCoord(idx, n);
    var cells := Kept(x - 1, y, n) + Kept(x, y - 1, n) + Kept(x, y, n) + Kept(x, y + 1, n) + Kept(x + 1, y, n);
    KeptOnBoard(x - 1, y, n);
    KeptOnBoard(x, y - 1, n);
    KeptOnBoard(x, y, n);
    KeptOnBoard(x, y + 1, n);
    KeptOnBoard(x + 1, y, n);
    cells
  }

  lemma KeptOnBoard(a: int, b: int, n: int)
    ensures forall k :: 0 <= k < |Kept(a, b, n)| ==> 0 <= Kept(a, b, n)[k] < n * n
  {
    if 0 <= a < n && 0 <= b < n {
      OnBoardIndex(a, b, n);
    }
  }

  /** The per-action table of toggle sets, one entry per cell. */
  function BuildTransformMap(n: nat): (table: seq<seq<int>>)
    ensures |table| == n * n
    ensures forall i :: 0 <= i < n * n ==> n > 0 && table[i] == ChangeElements(i, n)
  {
    if n == 0 then []
    else seq(n * n, i requires 0 <= i < n * n => ChangeElements(i, n))
  }

  predicate StrictlyIncreasing(s: seq<int>) {
    forall i, j :: 0 <= i < j < |s| ==> s[i] < s[j]
  }

  /** Two cells are orthogonal neighbours, or the same cell. */
  predicate WithinOneStep(p: (int, int), q: (int, int)) {
    var dr := p.0 - q.0;
    var dc := p.1 - q.1;
    (dr == 0 && -1 <= dc <= 1) || (dc == 0 && -1 <= dr <= 1)
  }

  /** The toggle set lists its cells in increasing order, so it holds no
      cell twice. */
  lemma ChangeElementsIncreasing(idx: int, n: int)
    requires n > 0
    ensures StrictlyIncreasing(ChangeElements(idx, n))
  {
    var (x, y) := ToCoord(idx, n);
    assert (x - 1) * n == x * n - n;
    assert (x + 1) * n == x * n + n;
  }

  /** A cell is in the toggle set of `idx` exactly when it is on the board and
      is `idx` itself or one of its orthogonal neighbours. */
  lemma ChangeElementsMembers(idx: int, n: int, j: int)
    requires n > 0
    ensures j in ChangeElements(idx, n) <==> 0 <= j < n * n && WithinOneStep(ToCoord(idx, n), ToCoord(j, n))
  {
    var (x, y) := ToCoord(idx, n);
    var (p, q) := ToCoord(j, n);
    KeptMember(x - 1, y, n, j);
    KeptMember(x, y - 1, n, j);
    KeptMember(x, y, n, j);
    KeptMember(x, y + 1, n, j);
    KeptMember(x + 1, y, n, j);
    if 0 <= j < n * n && WithinOneStep((x, y), (p, q)) {
      assert j == CellIndex(p, q, n);
      assert 0 <= p < n;
    }
  }

  lemma KeptMember(a: int, b: int, n: int, j: int)
    requires n > 0
    ensures j in Kept(a, b, n) <==> 0 <= j < n * n && ToCoord(j, n) == (a, b)
  {
    if j in Kept(a, b, n) {
      ToCoordRoundTrip(a, b, n);
      OnBoardIndex(a, b, n);
    }
  }

  /** Rows and columns `0` and `n - 1` form the border of the board. */
  function Borders(x: int, y: int, n: int): nat {
    (if x == 0 then 1 else 0) + (if y == 0 then 1 else 0)
      + (if y == n - 1 then 1 else 0) + (if x == n - 1 then 1 else 0)
  }

  /** For a cell on the board the toggle set holds the cell and one
      neighbour for each side of the board that the cell is not on. */
  lemma ChangeElementsCount(idx: int, n: int)
    requires n > 0 && 0 <= idx < n * n
    ensures var (x, y) := ToCoord(idx, n);
      |ChangeElements(idx, n)| == 5 - Borders(x, y, n)
  {
  }

  predicate IsCorner(idx: int, n: int)
    requires n > 0
  {
    var (x, y) := ToCoord(idx, n);
    (x == 0 || x == n - 1) && (y == 0 || y == n - 1)
  }

  predicate IsInterior(idx: int, n: int)
    requires n > 0
  {
    var (x, y) := ToCoord(idx, n);
    0 < x < n - 1 && 0 < y < n - 1
  }

  /** On a board of side at least 2, a corner cell toggles 3 cells, another
      border cell 4 and an interior cell 5. */
  lemma ChangeElementsSizeByPosition(idx: int, n: int)
    requires n >= 2 && 0 <= idx < n * n
    ensures IsCorner(idx, n) ==> |ChangeElements(idx, n)| == 3
    ensures !IsCorner(idx, n) && !IsInterior(idx, n) ==> |ChangeElements(idx, n)| == 4
    ensures IsInterior(idx, n) ==> |ChangeElements(idx, n)| == 5
  {
    ChangeElementsCount(idx, n);
  }

  /** On a board of side 1 the only cell toggles itself alone. */
  lemma SingleCellBoard()
    ensures ChangeElements(0, 1) == [0]
  {
  }
}
