/**
 * The ASCII rectangle decomposer `getFigureRectangles`: the figure is split
 * into rows on '\n', every cell is scanned in row-major order for a candidate
 * top-left `+`, and from each candidate four directed walks (right, down,
 * left, up) look for a boundary that closes on the candidate again. Each
 * closed boundary is emitted as a canonical drawing built from its width
 * and height alone.
 */
module Rectangles {
  import opened Wrappers
  import opened Text

  /** The figure's rows, as `figure.split('\n')` produces them; rows may differ in length. */
  type Grid = seq<string>

  /** The width and height of a traced rectangle, as `rec` returns them. */
  datatype Rect = Rect(width: int, height: int)

  // ---------------------------------------------------------------------
  // Cell access

  /** The character at row `r`, column `c`; `None` where JavaScript reads `undefined`. */
  function At(g: Grid, r: int, c: int): (x: Option<char>)
    ensures x.Some? <==> 0 <= r < |g| && 0 <= c < |g[r]|
    ensures x.Some? ==> x.value == g[r][c]
  {
    if 0 <= r < |g| && 0 <= c < |g[r]| then Some(g[r][c]) else None
  }

  /** `figure[r]` is truthy: the row exists and is not the empty string. */
  predicate RowPresent(g: Grid, r: int) {
    0 <= r < |g| && |g[r]| > 0
  }

  /** The cell holds a space, which breaks a walk. */
  predicate Gap(g: Grid, r: int, c: int) {
    At(g, r, c) == Some(' ')
  }

  /** The cell holds `+` and its neighbour at `(nr, nc)` is `+` or the side character `s`. */
  predicate Junction(g: Grid, r: int, c: int, nr: int, nc: int, s: char) {
    At(g, r, c) == Some('+') && (At(g, nr, nc) == Some('+') || At(g, nr, nc) == Some(s))
  }

  /** A vertical walk with step `dr` stops at row `r` of column `col`: the neighbour looked at is
      the one in column `col - dr`, toward the side the next walk follows. */
  predicate StopsV(g: Grid, r: int, col: int, dr: int, s: char) {
    Junction(g, r, col, r, col - dr, s)
  }

  /** A vertical walk goes on through row `r` of column `col`. Any character but a space or a
      stopping `+` lets it pass, including `undefined` past the end of a short row. */
  predicate PassesV(g: Grid, r: int, col: int, dr: int, s: char) {
    !StopsV(g, r, col, dr, s) && !Gap(g, r, col)
  }

  /** A horizontal walk with step `dc` along row `row` stops at column `c`: the neighbour looked at
      is in row `row + dc`, toward the side the next walk follows. */
  predicate StopsH(g: Grid, row: int, c: int, dc: int, s: char) {
    Junction(g, row, c, row + dc, c, s)
  }

  /** A horizontal walk goes on through column `c` of row `row`. */
  predicate PassesH(g: Grid, row: int, c: int, dc: int, s: char) {
    !StopsH(g, row, c, dc, s) && !Gap(g, row, c)
  }

  /** The steps `processing` is called with: exactly one of `dr`, `dc` is +1 or -1. */
  predicate IsUnitStep(dr: int, dc: int) {
    (dr == 0 && (dc == 1 || dc == -1)) || (dc == 0 && (dr == 1 || dr == -1))
  }

  // ---------------------------------------------------------------------
  // The directed walks (`processing`)

  /** The vertical walk of `processing` from row `i` on: the row of the first stopping `+`, or
      `None` when a space comes first or the rows run out. */
  function VerticalFrom(g: Grid, i: int, col: int, dr: int, s: char): (r: Option<int>)
    requires dr == 1 || dr == -1
    ensures r.Some? ==> 0 <= r.value < |g| && (if dr == 1 then i <= r.value else r.value <= i)
    decreases if dr == 1 then |g| - i else i + 1
  {
    if !(0 <= i < |g|) then None
    else if StopsV(g, i, col, dr, s) then Some(i)
    else if Gap(g, i, col) then None
    else VerticalFrom(g, i + dr, col, dr, s)
  }

  /** The horizontal walk of `processing` along row `row` from column `i` on. */
  function HorizontalFrom(g: Grid, row: int, i: int, dc: int, s: char): (r: Option<int>)
    requires 0 <= row < |g|
    requires dc == 1 || dc == -1
    ensures r.Some? ==> 0 <= r.value < |g[row]| && (if dc == 1 then i <= r.value else r.value <= i)
    decreases if dc == 1 then |g[row]| - i else i + 1
  {
    if !(0 <= i < |g[row]|) then None
    else if StopsH(g, row, i, dc, s) then Some(i)
    else if Gap(g, row, i) then None
    else HorizontalFrom(g, row, i + dc, dc, s)
  }

  /** What `processing(row, col, dr, dc, s)` returns: the index where the walk stops, strictly past
      its start cell, or `None` for JavaScript's `false`. A horizontal walk needs the row it looks
      at (`row + dc`) to be present. */
  function Walk(g: Grid, row: int, col: int, dr: int, dc: int, s: char): (r: Option<int>)
    requires 0 <= row < |g|
    requires IsUnitStep(dr, dc)
    ensures r.Some? && dr == 1 ==> row < r.value < |g|
    ensures r.Some? && dr == -1 ==> 0 <= r.value < row
    ensures r.Some? && dc == 1 ==> col < r.value < |g[row]|
    ensures r.Some? && dc == -1 ==> 0 <= r.value < col
  {
    if dr != 0 then VerticalFrom(g, row + dr, col, dr, s)
    else if RowPresent(g, row + dc) then HorizontalFrom(g, row, col + dc, dc, s)
    else None
  }

  /** `processing`: an index loop with early returns. */
  method Processing(g: Grid, row: int, col: int, dr: int, dc: int, s: char) returns (r: Option<int>)
    requires 0 <= row < |g|
    requires IsUnitStep(dr, dc)
    ensures r == Walk(g, row, col, dr, dc, s)
  {
    if dr != 0 {
      var i := row + dr;
      while i < |g| && i >= 0
        invariant VerticalFrom(g, i, col, dr, s) == VerticalFrom(g, row + dr, col, dr, s)
        decreases if dr == 1 then |g| - i else i + 1
      {
        if At(g, i, col) == Some('+') && (At(g, i, col - dr) == Some('+') || At(g, i, col - dr) == Some(s)) {
          return Some(i);
        } else if At(g, i, col) == Some(' ') {
          return None;
        }
        i := i + dr;
      }
    }
    if dc != 0 && RowPresent(g, row + dc) {
      var i := col + dc;
      while i < |g[row]| && i >= 0
        invariant HorizontalFrom(g, row, i, dc, s) == HorizontalFrom(g, row, col + dc, dc, s)
        decreases if dc == 1 then |g[row]| - i else i + 1
      {
        if At(g, row, i) == Some('+') && (At(g, row + dc, i) == Some('+') || At(g, row + dc, i) == Some(s)) {
          return Some(i);
        } else if At(g, row, i) == Some(' ') {
          return None;
        }
        i := i + dc;
      }
    }
    return None;
  }

  /** A vertical walk stops at row `k` exactly when `k` lies on its way, holds a stopping `+`, and
      every row visited before it lets the walk pass. */
  lemma {:induction false} VerticalFromFound(g: Grid, i: int, col: int, dr: int, s: char, k: int)
    requires dr == 1 || dr == -1
    ensures VerticalFrom(g, i, col, dr, s) == Some(k) <==>
      (if dr == 1 then 0 <= i <= k else k <= i < |g|) && StopsV(g, k, col, dr, s) &&
      (forall m :: (if dr == 1 then i <= m < k else k < m <= i) ==> PassesV(g, m, col, dr, s))
    decreases if dr == 1 then |g| - i else i + 1
  {
    if 0 <= i < |g| && !StopsV(g, i, col, dr, s) && !Gap(g, i, col) {
      VerticalFromFound(g, i + dr, col, dr, s, k);
      if (if dr == 1 then 0 <= i <= k else k <= i < |g|) && StopsV(g, k, col, dr, s) && k != i {
      }
    } else if 0 <= i < |g| && k != i && (if dr == 1 then i < k else k < i) {
      assert !PassesV(g, i, col, dr, s);
    }
  }

  /** A horizontal walk stops at column `k` exactly when `k` lies on its way, holds a stopping `+`,
      and every column visited before it lets the walk pass. */
  lemma {:induction false} HorizontalFromFound(g: Grid, row: int, i: int, dc: int, s: char, k: int)
    requires 0 <= row < |g|
    requires dc == 1 || dc == -1
    ensures HorizontalFrom(g, row, i, dc, s) == Some(k) <==>
      (if dc == 1 then 0 <= i <= k else k <= i < |g[row]|) && StopsH(g, row, k, dc, s) &&
      (forall m :: (if dc == 1 then i <= m < k else k < m <= i) ==> PassesH(g, row, m, dc, s))
    decreases if dc == 1 then |g[row]| - i else i + 1
  {
    if 0 <= i < |g[row]| && !StopsH(g, row, i, dc, s) && !Gap(g, row, i) {
      HorizontalFromFound(g, row, i + dc, dc, s, k);
      if (if dc == 1 then 0 <= i <= k else k <= i < |g[row]|) && StopsH(g, row, k, dc, s) && k != i {
      }
    } else if 0 <= i < |g[row]| && k != i && (if dc == 1 then i < k else k < i) {
      assert !PassesH(g, row, i, dc, s);
    }
  }

  /** A vertical walk that meets a space before any stopping `+` fails: no error, no index. */
  lemma {:induction false} VerticalGapFails(g: Grid, i: int, col: int, dr: int, s: char, k: int)
    requires dr == 1 || dr == -1
    requires if dr == 1 then 0 <= i <= k else k <= i < |g|
    requires Gap(g, k, col)
    requires forall m :: (if dr == 1 then i <= m < k else k < m <= i) ==> PassesV(g, m, col, dr, s)
    ensures VerticalFrom(g, i, col, dr, s) == None
    decreases if dr == 1 then |g| - i else i + 1
  {
    if i != k {
      assert PassesV(g, i, col, dr, s);
      VerticalGapFails(g, i + dr, col, dr, s, k);
    }
  }

  /** A horizontal walk that meets a space before any stopping `+` fails. */
  lemma {:induction false} HorizontalGapFails(g: Grid, row: int, i: int, dc: int, s: char, k: int)
    requires 0 <= row < |g|
    requires dc == 1 || dc == -1
    requires if dc == 1 then 0 <= i <= k else k <= i < |g[row]|
    requires Gap(g, row, k)
    requires forall m :: (if dc == 1 then i <= m < k else k < m <= i) ==> PassesH(g, row, m, dc, s)
    ensures HorizontalFrom(g, row, i, dc, s) == None
    decreases if dc == 1 then |g[row]| - i else i + 1
  {
    if i != k {
      assert PassesH(g, row, i, dc, s);
      HorizontalGapFails(g, row, i + dc, dc, s, k);
    }
  }

  /** A walk of `processing` meeting a space before any stopping `+` returns `false`: one step
      past the start, in whichever of the four directions, up to the space. */
  lemma WalkGapFails(g: Grid, row: int, col: int, dr: int, dc: int, s: char, k: int)
    requires 0 <= row < |g|
    requires IsUnitStep(dr, dc)
    requires dr == 1 ==> Gap(g, k, col) && row < k && forall m :: row < m < k ==> PassesV(g, m, col, dr, s)
    requires dr == -1 ==> Gap(g, k, col) && k < row && forall m :: k < m < row ==> PassesV(g, m, col, dr, s)
    requires dc == 1 ==> Gap(g, row, k) && col < k && forall m :: col < m < k ==> PassesH(g, row, m, dc, s)
    requires dc == -1 ==> Gap(g, row, k) && k < col && forall m :: k < m < col ==> PassesH(g, row, m, dc, s)
    ensures Walk(g, row, col, dr, dc, s) == None
  {
    if dr != 0 {
      VerticalGapFails(g, row + dr, col, dr, s, k);
    } else if RowPresent(g, row + dc) && 0 <= col + dc < |g[row]| {
      HorizontalGapFails(g, row, col + dc, dc, s, k);
    }
  }

  // ---------------------------------------------------------------------
  // Tracing one rectangle (`rec`)

  /** What `rec(row, col)` returns: the four walks chained corner to corner, and a rectangle only
      when the last walk lands back on the origin. */
  function Trace(g: Grid, row: int, col: int): (r: Option<Rect>)
    requires 0 <= row < |g|
    ensures r.Some? ==> r.value.width >= 2 && r.value.height >= 2
  {
    match Walk(g, row, col, 0, 1, '|')
    case None => None
    case Some(right) =>
      match Walk(g, row, right, 1, 0, '-')
      case None => None
      case Some(bottom) =>
        match Walk(g, bottom, right, 0, -1, '|')
        case None => None
        case Some(left) =>
          match Walk(g, bottom, left, -1, 0, '-')
          case None => None
          case Some(top) =>
            if top == row && left == col then Some(Rect(right - col + 1, bottom - row + 1)) else None
  }

  /** `rec`: right, down, left, up, then the closure test. */
  method Rec(g: Grid, row: int, col: int) returns (r: Option<Rect>)
    requires 0 <= row < |g|
    ensures r == Trace(g, row, col)
  {
    var c := Processing(g, row, col, 0, 1, '|');
    if c.None? { return None; }
    var rw := Processing(g, row, c.value, 1, 0, '-');
    if rw.None? { return None; }
    var resultCol, resultRow := c.value, rw.value;
    c := Processing(g, rw.value, c.value, 0, -1, '|');
    if c.None? { return None; }
    rw := Processing(g, rw.value, c.value, -1, 0, '-');
    if rw.None? { return None; }
    if rw.value == row && c.value == col {
      return Some(Rect(resultCol - col + 1, resultRow - row + 1));
    } else {
      return None;
    }
  }

  /** The boundary of a `w` by `h` rectangle with top-left corner `(row, col)` as the four walks
      see it: each side ends in a stopping `+` and every cell before that lets the walk pass. */
  predicate ClosedBoundary(g: Grid, row: int, col: int, w: int, h: int) {
    var right, bottom := col + w - 1, row + h - 1;
    w >= 2 && h >= 2 &&
    // top edge, walked rightwards, looking down at the right edge
    RowPresent(g, row + 1) && StopsH(g, row, right, 1, '|') &&
    (forall c :: col < c < right ==> PassesH(g, row, c, 1, '|')) &&
    // right edge, walked downwards, looking left at the bottom edge
    StopsV(g, bottom, right, 1, '-') &&
    (forall r :: row < r < bottom ==> PassesV(g, r, right, 1, '-')) &&
    // bottom edge, walked leftwards, looking up at the left edge
    RowPresent(g, bottom - 1) && StopsH(g, bottom, col, -1, '|') &&
    (forall c :: col < c < right ==> PassesH(g, bottom, c, -1, '|')) &&
    // left edge, walked upwards, looking right at the top edge
    StopsV(g, row, col, -1, '-') &&
    (forall r :: row < r < bottom ==> PassesV(g, r, col, -1, '-'))
  }

  /** The top edge: the rightward walk from `(row, col)` stops at column `right`. */
  lemma TopEdge(g: Grid, row: int, col: int, right: int)
    requires 0 <= row < |g| && 0 <= col
    ensures Walk(g, row, col, 0, 1, '|') == Some(right) <==>
      RowPresent(g, row + 1) && col < right && StopsH(g, row, right, 1, '|') &&
      (forall c :: col < c < right ==> PassesH(g, row, c, 1, '|'))
  {
    HorizontalFromFound(g, row, col + 1, 1, '|', right);
  }

  /** The right edge: the downward walk from `(row, right)` stops at row `bottom`. */
  lemma RightEdge(g: Grid, row: int, right: int, bottom: int)
    requires 0 <= row < |g|
    ensures Walk(g, row, right, 1, 0, '-') == Some(bottom) <==>
      row < bottom && StopsV(g, bottom, right, 1, '-') &&
      (forall r :: row < r < bottom ==> PassesV(g, r, right, 1, '-'))
  {
    VerticalFromFound(g, row + 1, right, 1, '-', bottom);
  }

  /** The bottom edge: the leftward walk from `(bottom, right)` stops at column `left`. */
  lemma BottomEdge(g: Grid, bottom: int, right: int, left: int)
    requires 0 <= bottom < |g|
    ensures Walk(g, bottom, right, 0, -1, '|') == Some(left) <==>
      RowPresent(g, bottom - 1) && left < right && right - 1 < |g[bottom]| &&
      StopsH(g, bottom, left, -1, '|') &&
      (forall c :: left < c < right ==> PassesH(g, bottom, c, -1, '|'))
  {
    HorizontalFromFound(g, bottom, right - 1, -1, '|', left);
  }

  /** The left edge: the upward walk from `(bottom, left)` stops at row `top`. */
  lemma LeftEdge(g: Grid, bottom: int, left: int, top: int)
    requires 0 <= bottom < |g|
    ensures Walk(g, bottom, left, -1, 0, '-') == Some(top) <==>
      top < bottom && StopsV(g, top, left, -1, '-') &&
      (forall r :: top < r < bottom ==> PassesV(g, r, left, -1, '-'))
  {
    VerticalFromFound(g, bottom - 1, left, -1, '-', top);
  }

  /** `rec` finds a `w` by `h` rectangle at `(row, col)` exactly when that rectangle's boundary is
      closed in the sense of the four walks. */
  lemma TraceIff(g: Grid, row: int, col: int, w: int, h: int)
    requires 0 <= row < |g| && 0 <= col
    ensures Trace(g, row, col) == Some(Rect(w, h)) <==> ClosedBoundary(g, row, col, w, h)
  {
    var right, bottom := col + w - 1, row + h - 1;
    if Trace(g, row, col) == Some(Rect(w, h)) {
      var c1 := Walk(g, row, col, 0, 1, '|').value;
      var r1 := Walk(g, row, c1, 1, 0, '-').value;
      var c2 := Walk(g, r1, c1, 0, -1, '|').value;
      assert c1 == right && r1 == bottom && c2 == col;
      TopEdge(g, row, col, right);
      RightEdge(g, row, right, bottom);
      BottomEdge(g, bottom, right, col);
      LeftEdge(g, bottom, col, row);
    }
    if ClosedBoundary(g, row, col, w, h) {
      TopEdge(g, row, col, right);
      RightEdge(g, row, right, bottom);
      BottomEdge(g, bottom, right, col);
      LeftEdge(g, bottom, col, row);
    }
  }

  /** A traced rectangle has `+` at its four corners and no space anywhere on its four sides. */
  lemma TracedRectangleShape(g: Grid, row: int, col: int)
    requires 0 <= row < |g| && 0 <= col
    requires Trace(g, row, col).Some?
    ensures var R := Trace(g, row, col).value;
      var right, bottom := col + R.width - 1, row + R.height - 1;
      && At(g, row, col) == Some('+') && At(g, row, right) == Some('+')
      && At(g, bottom, right) == Some('+') && At(g, bottom, col) == Some('+')
      && (forall c :: col < c < right ==> At(g, row, c) != Some(' ') && At(g, bottom, c) != Some(' '))
      && (forall r :: row < r < bottom ==> At(g, r, col) != Some(' ') && At(g, r, right) != Some(' '))
  {
    var R := Trace(g, row, col).value;
    var right, bottom := col + R.width - 1, row + R.height - 1;
    TraceIff(g, row, col, R.width, R.height);
    forall c | col < c < right
      ensures At(g, row, c) != Some(' ') && At(g, bottom, c) != Some(' ')
    {
      assert PassesH(g, row, c, 1, '|') && PassesH(g, bottom, c, -1, '|');
    }
    forall r | row < r < bottom
      ensures At(g, r, col) != Some(' ') && At(g, r, right) != Some(' ')
    {
      assert PassesV(g, r, col, -1, '-') && PassesV(g, r, right, 1, '-');
    }
  }

  // ---------------------------------------------------------------------
  // Rendering (`getFigure`)

  /** `getFigure`: a top line `+`, `width - 2` dashes, `+`; `height - 2` interior lines `|`,
      `width - 2` spaces, `|`; and the top line again. Every line ends in '\n'. */
  function GetFigure(rect: Rect): (r: string)
    requires rect.width >= 2 && rect.height >= 2
    ensures |r| == rect.height * (rect.width + 1)
  {
    var line := Border(rect.width);
    var result := line;
    result + Repeat(Interior(rect.width), rect.height - 2) + line
  }

  /** The character that column `j` of line `k` of a canonical `w` by `h` drawing holds; column
      `w` is the line's '\n'. */
  function Canonical(w: int, h: int, k: int, j: int): char {
    if j == w then '\n'
    else if k == 0 || k == h - 1 then (if j == 0 || j == w - 1 then '+' else '-')
    else (if j == 0 || j == w - 1 then '|' else ' ')
  }

  /** The rendering has exactly `height` lines of `width` characters plus '\n': borders of `+` and
      dashes on the first and last line, `|` and spaces on the lines between. */
  lemma GetFigureAt(rect: Rect, k: int, j: int)
    requires rect.width >= 2 && rect.height >= 2
    requires 0 <= k < rect.height && 0 <= j <= rect.width
    ensures 0 <= k * (rect.width + 1) + j < |GetFigure(rect)|
    ensures GetFigure(rect)[k * (rect.width + 1) + j] == Canonical(rect.width, rect.height, k, j)
  {
    var w, h := rect.width, rect.height;
    LineOffset(w, h, k);
    var n := k * (w + 1) + j;
    if k == 0 {
      GetFigureLineAt(rect, 0, j);
    } else if k == h - 1 {
      GetFigureLineAt(rect, (w + 1) + (w + 1) * (h - 2), j);
    } else {
      GetFigureInteriorAt(rect, k - 1, (k - 1) * (w + 1), j);
    }
  }

  /** The first line starts at offset 0, the last one after the first and the interior lines. */
  lemma GetFigureLineAt(rect: Rect, start: int, j: int)
    requires rect.width >= 2 && rect.height >= 2 && 0 <= j <= rect.width
    requires start == 0 || start == (rect.width + 1) + (rect.width + 1) * (rect.height - 2)
    ensures start + j < |GetFigure(rect)| && GetFigure(rect)[start + j] == Canonical(rect.width, 2, 0, j)
  {
    var w, h := rect.width, rect.height;
    var body := Repeat(Interior(w), h - 2);
    assert GetFigure(rect) == Border(w) + body + Border(w);
    LineAt(w, j);
    ThreePartsAt(Border(w), body, Border(w), start + j);
  }

  /** Interior line `q` (counting from 0) starts at offset `(w + 1) + q * (w + 1)`. */
  lemma GetFigureInteriorAt(rect: Rect, q: int, qoff: int, j: int)
    requires rect.width >= 2 && 0 <= q < rect.height - 2 && 0 <= j <= rect.width
    requires qoff == q * (rect.width + 1)
    ensures (rect.width + 1) + qoff + j < |GetFigure(rect)|
    ensures GetFigure(rect)[(rect.width + 1) + qoff + j] == Canonical(rect.width, 3, 1, j)
  {
    var w, h := rect.width, rect.height;
    var body := Repeat(Interior(w), h - 2);
    assert GetFigure(rect) == Border(w) + body + Border(w);
    MiddleAt(w, j);
    assert |Interior(w)| == w + 1;
    RepeatAt(Interior(w), h - 2, q, j);
    assert qoff + j < |body|;
    assert body[qoff + j] == Interior(w)[j];
    ThreePartsAt(Border(w), body, Border(w), (w + 1) + qoff + j);
    assert (Border(w) + body + Border(w))[(w + 1) + qoff + j] == Interior(w)[j];
  }

  /** Indexing into a concatenation of three strings. */
  lemma ThreePartsAt(a: string, b: string, c: string, n: int)
    requires 0 <= n < |a| + |b| + |c|
    ensures (a + b + c)[n] == if n < |a| then a[n] else if n < |a| + |b| then b[n - |a|] else c[n - |a| - |b|]
  {
  }

  /** The offsets of the lines of a `w` by `h` rendering. */
  lemma LineOffset(w: int, h: int, k: int)
    requires w >= 2 && h >= 2 && 0 <= k < h
    ensures k * (w + 1) + w < h * (w + 1)
    ensures k > 0 ==> k * (w + 1) == (w + 1) + (k - 1) * (w + 1)
    ensures (h - 1) * (w + 1) == (w + 1) + (w + 1) * (h - 2)
  {
    assert k * (w + 1) <= (h - 1) * (w + 1);
  }

  /** The first and last line of a rendering of width `w`. */
  function Border(w: int): (line: string)
    requires w >= 2
    ensures |line| == w + 1
  {
    "+" + Repeat("-", w - 2) + "+\n"
  }

  /** An interior line of a rendering of width `w`. */
  function Interior(w: int): (line: string)
    requires w >= 2
    ensures |line| == w + 1
  {
    "|" + Repeat(" ", w - 2) + "|\n"
  }

  lemma LineAt(w: int, j: int)
    requires w >= 2 && 0 <= j <= w
    ensures Border(w)[j] == Canonical(w, 2, 0, j) && Canonical(w, 2, 0, j) == Canonical(w, 2, 1, j)
  {
    if 0 < j < w - 1 {
      RepeatAt("-", w - 2, j - 1, 0);
      assert Border(w)[j] == Repeat("-", w - 2)[(j - 1) * 1 + 0];
    }
  }

  lemma MiddleAt(w: int, j: int)
    requires w >= 2 && 0 <= j <= w
    ensures Interior(w)[j] == Canonical(w, 3, 1, j)
  {
    if 0 < j < w - 1 {
      RepeatAt(" ", w - 2, j - 1, 0);
      assert Interior(w)[j] == Repeat(" ", w - 2)[(j - 1) * 1 + 0];
    }
  }

  // ---------------------------------------------------------------------
  // Scanning the grid (`getFigureRectangles`)

  /** The scanner's test for a candidate top-left corner: a `+`, a present next row whose cell
      below is `|` or `+`, and a `-` or `+` to the right. */
  predicate Candidate(g: Grid, i: int, j: int) {
    At(g, i, j) == Some('+') &&
    RowPresent(g, i + 1) && (At(g, i + 1, j) == Some('|') || At(g, i + 1, j) == Some('+')) &&
    (At(g, i, j + 1) == Some('-') || At(g, i, j + 1) == Some('+'))
  }

  /** What the scan yields at cell `(i, j)`: one drawing or nothing. */
  function FromOrigin(g: Grid, i: int, j: int): seq<string>
    requires 0 <= i < |g|
  {
    if Candidate(g, i, j) then
      match Trace(g, i, j)
      case Some(rect) => [GetFigure(rect)]
      case None => []
    else []
  }

  /** What the scan yields from the cells `j..` of row `i`. */
  function ScanRow(g: Grid, i: int, j: nat): seq<string>
    requires 0 <= i < |g|
    decreases |g[i]| - j
  {
    if j >= |g[i]| then [] else FromOrigin(g, i, j) + ScanRow(g, i, j + 1)
  }

  /** What the scan yields from the rows `i..`. */
  function ScanRows(g: Grid, i: nat): seq<string>
    decreases |g| - i
  {
    if i >= |g| then [] else ScanRow(g, i, 0) + ScanRows(g, i + 1)
  }

  /** Everything `getFigureRectangles(figure)` yields, in order. */
  function Rectangles(figure: string): seq<string> {
    ScanRows(Split(figure, '\n'), 0)
  }

  /** One cell of the scan: what it adds to `out` keeps the scan's accounting. */
  lemma ScanCellStep(g: Grid, i: int, j: nat, before: seq<string>, after: seq<string>)
    requires 0 <= i < |g| && j < |g[i]|
    requires after == before + FromOrigin(g, i, j)
    ensures before + ScanRow(g, i, j) + ScanRows(g, i + 1) == after + ScanRow(g, i, j + 1) + ScanRows(g, i + 1)
  {
    var here, rest, below := FromOrigin(g, i, j), ScanRow(g, i, j + 1), ScanRows(g, i + 1);
    assert ScanRow(g, i, j) == here + rest;
    Regroup(before, here, rest, below);
  }

  /** Moving the cursor's yield from the part still to come to the part already done. */
  lemma Regroup(before: seq<string>, here: seq<string>, rest: seq<string>, below: seq<string>)
    ensures before + (here + rest) + below == (before + here) + rest + below
  {
  }

  /** The end of a row of the scan. */
  lemma ScanRowStep(g: Grid, i: int, out: seq<string>)
    requires 0 <= i < |g|
    ensures out + ScanRow(g, i, |g[i]|) + ScanRows(g, i + 1) == out + ScanRows(g, i + 1)
    ensures out + ScanRows(g, i) == out + ScanRow(g, i, 0) + ScanRows(g, i + 1)
  {
    var none := ScanRow(g, i, |g[i]|);
    assert none == [];
    assert out + none == out;
  }

  /** `getFigureRectangles`: the nested row/column scan. */
  method GetFigureRectangles(figure: string) returns (out: seq<string>)
    ensures out == Rectangles(figure)
  {
    var g := Split(figure, '\n');
    out := [];
    var i := 0;
    while i < |g|
      invariant 0 <= i <= |g|
      invariant out + ScanRows(g, i) == ScanRows(g, 0)
    {
      ScanRowStep(g, i, out);
      var j := 0;
      while j < |g[i]|
        invariant 0 <= j <= |g[i]|
        invariant out + ScanRow(g, i, j) + ScanRows(g, i + 1) == ScanRows(g, 0)
      {
        ghost var before := out;
        if Candidate(g, i, j) {
          var obj := Rec(g, i, j);
          if obj.Some? {
            out := out + [GetFigure(obj.value)];
          }
        }
        ScanCellStep(g, i, j, before, out);
        j := j + 1;
      }
      ScanRowStep(g, i, out);
      i := i + 1;
    }
  }

  // ---------------------------------------------------------------------
  // What the scan yields

  /** The rows of a figure. */
  function Rows(figure: string): Grid {
    Split(figure, '\n')
  }

  /** Cell `(r, c)` is a candidate corner and a boundary of the size drawn in `x` closes on it. */
  ghost predicate Yields(g: Grid, r: int, c: int, x: string) {
    exists w, h :: Candidate(g, r, c) && ClosedBoundary(g, r, c, w, h) && x == GetFigure(Rect(w, h))
  }

  lemma FromOriginMembers(g: Grid, i: int, j: int, x: string)
    requires 0 <= i < |g|
    ensures x in FromOrigin(g, i, j) <==> Yields(g, i, j, x)
  {
    if Candidate(g, i, j) {
      match Trace(g, i, j)
      case Some(R) =>
        TraceIff(g, i, j, R.width, R.height);
        if Yields(g, i, j, x) {
          var w, h :| ClosedBoundary(g, i, j, w, h) && x == GetFigure(Rect(w, h));
          TraceIff(g, i, j, w, h);
        }
      case None =>
        forall w, h ensures !ClosedBoundary(g, i, j, w, h) {
          TraceIff(g, i, j, w, h);
        }
    }
  }

  lemma {:induction false} ScanRowMembers(g: Grid, i: int, j: nat, x: string)
    requires 0 <= i < |g|
    ensures x in ScanRow(g, i, j) <==> exists c :: j <= c && Yields(g, i, c, x)
    decreases |g[i]| - j
  {
    if j < |g[i]| {
      FromOriginMembers(g, i, j, x);
      ScanRowMembers(g, i, j + 1, x);
      if exists c :: j <= c && Yields(g, i, c, x) {
        var c :| j <= c && Yields(g, i, c, x);
        if c == j {
          assert x in FromOrigin(g, i, j);
        } else {
          assert x in ScanRow(g, i, j + 1);
        }
      }
    } else {
      forall c | j <= c ensures !Yields(g, i, c, x) {
        assert At(g, i, c).None?;
      }
    }
  }

  /** A yielding cell lies inside the grid. */
  lemma YieldsInside(g: Grid, r: int, c: int, x: string)
    requires Yields(g, r, c, x)
    ensures 0 <= r < |g| && 0 <= c < |g[r]|
  {
    assert At(g, r, c).Some?;
  }

  lemma {:induction false} ScanRowsMembers(g: Grid, i: nat, x: string)
    ensures x in ScanRows(g, i) <==> exists r, c :: i <= r < |g| && Yields(g, r, c, x)
    decreases |g| - i
  {
    if i < |g| {
      assert ScanRows(g, i) == ScanRow(g, i, 0) + ScanRows(g, i + 1);
      ScanRowMembers(g, i, 0, x);
      ScanRowsMembers(g, i + 1, x);
      if x in ScanRow(g, i, 0) {
        var c :| 0 <= c && Yields(g, i, c, x);
        assert i <= i < |g| && Yields(g, i, c, x);
      } else if x in ScanRows(g, i + 1) {
        var r, c :| i + 1 <= r < |g| && Yields(g, r, c, x);
        assert i <= r < |g| && Yields(g, r, c, x);
      }
      if exists r, c :: i <= r < |g| && Yields(g, r, c, x) {
        var r, c :| i <= r < |g| && Yields(g, r, c, x);
        if r == i {
          YieldsInside(g, r, c, x);
          assert x in ScanRow(g, i, 0);
        } else {
          assert x in ScanRows(g, i + 1);
        }
      }
    }
  }

  /** The drawings `getFigureRectangles` yields are exactly those of the closed boundaries whose
      top-left corner is a candidate: nothing else is yielded, and none of those is missed. */
  lemma RectanglesMembers(figure: string, x: string)
    ensures x in Rectangles(figure) <==>
      exists r, c, w, h :: 0 <= r < |Rows(figure)| && Candidate(Rows(figure), r, c) &&
        ClosedBoundary(Rows(figure), r, c, w, h) && x == GetFigure(Rect(w, h))
  {
    var g := Rows(figure);
    ScanRowsMembers(g, 0, x);
    if x in Rectangles(figure) {
      var r, c :| 0 <= r < |g| && Yields(g, r, c, x);
      var w, h :| Candidate(g, r, c) && ClosedBoundary(g, r, c, w, h) && x == GetFigure(Rect(w, h));
    }
    if exists r, c, w, h :: 0 <= r < |g| && Candidate(g, r, c) && ClosedBoundary(g, r, c, w, h) && x == GetFigure(Rect(w, h)) {
      var r, c, w, h :| 0 <= r < |g| && Candidate(g, r, c) && ClosedBoundary(g, r, c, w, h) && x == GetFigure(Rect(w, h));
      assert Yields(g, r, c, x);
    }
  }

  /** A figure without any `+` yields nothing. */
  lemma NoPlusNoRectangles(figure: string)
    requires '+' !in figure
    ensures Rectangles(figure) == []
  {
    if Rectangles(figure) != [] {
      var g := Rows(figure);
      ScanRowsMembers(g, 0, Rectangles(figure)[0]);
      var r, c :| 0 <= r < |g| && Yields(g, r, c, Rectangles(figure)[0]);
      assert g[r][c] == '+';
      SplitChars(figure, '\n', r, '+');
    }
  }

  // ---------------------------------------------------------------------
  // Drawing a rectangle and scanning it again

  /** The grid a rendering splits into: `h` rows of `w` canonical characters, then the empty
      piece after the final '\n'. */
  ghost predicate DrawnGrid(g: Grid, w: int, h: int) {
    w >= 2 && h >= 2 && |g| == h + 1 && g[h] == [] &&
    (forall k :: 0 <= k < h ==> |g[k]| == w) &&
    (forall k, j :: 0 <= k < h && 0 <= j < w ==> g[k][j] == Canonical(w, h, k, j))
  }

  /** `n` copies of the interior row, without its '\n'. */
  function MiddleRows(w: int, n: nat): (rows: seq<string>)
    requires w >= 2
    ensures |rows| == n && forall q :: 0 <= q < n ==> rows[q] == Interior(w)[..w]
  {
    if n == 0 then [] else [Interior(w)[..w]] + MiddleRows(w, n - 1)
  }

  /** A border or interior line is its first `w` characters, which hold no '\n', then '\n'. */
  lemma LinesEndInNewline(w: int)
    requires w >= 2
    ensures Border(w) == Border(w)[..w] + ['\n'] && '\n' !in Border(w)[..w]
    ensures Interior(w) == Interior(w)[..w] + ['\n'] && '\n' !in Interior(w)[..w]
  {
    LineAt(w, w);
    MiddleAt(w, w);
    assert Border(w) == Border(w)[..w] + [Border(w)[w]];
    assert Interior(w) == Interior(w)[..w] + [Interior(w)[w]];
    forall j | 0 <= j < w ensures Border(w)[..w][j] != '\n' && Interior(w)[..w][j] != '\n' {
      LineAt(w, j);
      MiddleAt(w, j);
    }
  }

  lemma {:induction false} SplitMiddle(w: int, n: nat, t: string)
    requires w >= 2
    ensures Split(Repeat(Interior(w), n) + t, '\n') == MiddleRows(w, n) + Split(t, '\n')
    decreases n
  {
    if n > 0 {
      SplitMiddle(w, n - 1, t);
      SplitMiddleStep(w, n, t);
    } else {
      assert Repeat(Interior(w), n) + t == t;
      assert MiddleRows(w, n) + Split(t, '\n') == Split(t, '\n');
    }
  }

  /** One more interior line in front adds one more interior row in front. */
  lemma SplitMiddleStep(w: int, n: nat, t: string)
    requires w >= 2 && n > 0
    requires Split(Repeat(Interior(w), n - 1) + t, '\n') == MiddleRows(w, n - 1) + Split(t, '\n')
    ensures Split(Repeat(Interior(w), n) + t, '\n') == MiddleRows(w, n) + Split(t, '\n')
  {
    var line := Interior(w)[..w];
    var rest := Repeat(Interior(w), n - 1) + t;
    MiddleUnfold(w, n, t);
    LinesEndInNewline(w);
    SplitLine(line, rest, '\n');
    var mids := MiddleRows(w, n - 1);
    assert MiddleRows(w, n) == [line] + mids;
    assert [line] + (mids + Split(t, '\n')) == ([line] + mids) + Split(t, '\n');
  }

  /** Interior lines followed by `t` are the first line's characters, '\n', and the rest. */
  lemma MiddleUnfold(w: int, n: nat, t: string)
    requires w >= 2 && n > 0
    ensures Repeat(Interior(w), n) + t == Interior(w)[..w] + ['\n'] + (Repeat(Interior(w), n - 1) + t)
  {
    LinesEndInNewline(w);
  }

  /** A rendering is its top border's characters, '\n', then the interior lines and the bottom border. */
  lemma FigureParts(rect: Rect)
    requires rect.width >= 2 && rect.height >= 2
    ensures GetFigure(rect) ==
      Border(rect.width)[..rect.width] + ['\n'] + (Repeat(Interior(rect.width), rect.height - 2) + Border(rect.width))
  {
    LinesEndInNewline(rect.width);
  }

  /** A border line splits into its characters and the empty piece after its '\n'. */
  lemma BorderSplit(w: int)
    requires w >= 2
    ensures Split(Border(w), '\n') == [Border(w)[..w], []]
  {
    var top := Border(w)[..w];
    LinesEndInNewline(w);
    assert Border(w) == top + ['\n'] + [];
    SplitLine(top, [], '\n');
  }

  /** Splitting a rendering at its '\n's: the top border, the interior rows, the bottom border
      and the empty piece after the last '\n'. */
  lemma RenderedSplit(rect: Rect)
    requires rect.width >= 2 && rect.height >= 2
    ensures Rows(GetFigure(rect)) ==
      [Border(rect.width)[..rect.width]] + MiddleRows(rect.width, rect.height - 2) + [Border(rect.width)[..rect.width]] + [[]]
  {
    var w, h := rect.width, rect.height;
    var top := Border(w)[..w];
    LinesEndInNewline(w);
    FigureParts(rect);
    SplitLine(top, Repeat(Interior(w), h - 2) + Border(w), '\n');
    SplitMiddle(w, h - 2, Border(w));
    BorderSplit(w);
    var mids := MiddleRows(w, h - 2);
    assert [top] + (mids + [top, []]) == [top] + mids + [top] + [[]];
  }

  /** Splitting a rendering into rows gives the grid it draws. */
  lemma RenderedRows(rect: Rect)
    requires rect.width >= 2 && rect.height >= 2
    ensures DrawnGrid(Rows(GetFigure(rect)), rect.width, rect.height)
  {
    var w, h := rect.width, rect.height;
    RenderedSplit(rect);
    var g := Rows(GetFigure(rect));
    var mids := MiddleRows(w, h - 2);
    assert |g| == h + 1 && g[h] == [];
    assert g[0] == Border(w)[..w] && g[h - 1] == Border(w)[..w];
    forall k | 0 < k < h - 1 ensures g[k] == Interior(w)[..w] {
      assert g[k] == mids[k - 1];
    }
    forall k, j | 0 <= k < h && 0 <= j < w ensures g[k][j] == Canonical(w, h, k, j) {
      LineAt(w, j);
      MiddleAt(w, j);
    }
  }

  /** The drawn border closes on the top-left corner, which is a candidate. */
  lemma DrawnClosed(g: Grid, w: int, h: int)
    requires DrawnGrid(g, w, h)
    ensures Candidate(g, 0, 0) && ClosedBoundary(g, 0, 0, w, h)
  {
    assert g[0][0] == '+' && g[0][w - 1] == '+' && g[h - 1][0] == '+' && g[h - 1][w - 1] == '+';
    assert g[0][1] == Canonical(w, h, 0, 1) && g[1][0] == Canonical(w, h, 1, 0);
    assert g[1][w - 1] == Canonical(w, h, 1, w - 1) && g[h - 1][1] == Canonical(w, h, h - 1, 1);
    assert g[h - 2][0] == Canonical(w, h, h - 2, 0) && g[h - 1][w - 2] == Canonical(w, h, h - 1, w - 2);
    forall c | 0 < c < w - 1 ensures PassesH(g, 0, c, 1, '|') && PassesH(g, h - 1, c, -1, '|') {
      assert g[0][c] == Canonical(w, h, 0, c) && g[h - 1][c] == Canonical(w, h, h - 1, c);
    }
    forall r | 0 < r < h - 1 ensures PassesV(g, r, w - 1, 1, '-') && PassesV(g, r, 0, -1, '-') {
      assert g[r][w - 1] == Canonical(w, h, r, w - 1) && g[r][0] == Canonical(w, h, r, 0);
    }
  }

  /** A row holding no candidate from column `j` on yields nothing from there. */
  lemma {:induction false} ScanRowNone(g: Grid, i: int, j: nat)
    requires 0 <= i < |g|
    requires forall c :: j <= c < |g[i]| ==> !Candidate(g, i, c)
    ensures ScanRow(g, i, j) == []
    decreases |g[i]| - j
  {
    if j < |g[i]| {
      ScanRowNone(g, i, j + 1);
    }
  }

  /** Rows holding no candidate from row `i` on yield nothing. */
  lemma {:induction false} ScanRowsNone(g: Grid, i: nat)
    requires forall r, c :: i <= r < |g| && 0 <= c ==> !Candidate(g, r, c)
    ensures ScanRows(g, i) == []
    decreases |g| - i
  {
    if i < |g| {
      ScanRowNone(g, i, 0);
      ScanRowsNone(g, i + 1);
    }
  }

  /** Scanning a drawn grid finds its rectangle and nothing else. */
  lemma DrawnScan(g: Grid, w: int, h: int)
    requires DrawnGrid(g, w, h)
    ensures ScanRows(g, 0) == [GetFigure(Rect(w, h))]
  {
    DrawnClosed(g, w, h);
    TraceIff(g, 0, 0, w, h);
    assert FromOrigin(g, 0, 0) == [GetFigure(Rect(w, h))];
    forall c | 1 <= c < |g[0]| ensures !Candidate(g, 0, c) {
      assert g[0][c] == Canonical(w, h, 0, c);
      if c == w - 1 {
        assert At(g, 0, c + 1).None?;
      }
    }
    ScanRowNone(g, 0, 1);
    forall r, c | 1 <= r < |g| && 0 <= c ensures !Candidate(g, r, c) {
      if r < h - 1 && c < w {
        assert g[r][c] == Canonical(w, h, r, c);
      } else if r == h - 1 {
        assert !RowPresent(g, r + 1);
      } else {
        assert At(g, r, c).None?;
      }
    }
    ScanRowsNone(g, 1);
    assert ScanRow(g, 0, 0) == FromOrigin(g, 0, 0) + ScanRow(g, 0, 1);
  }

  /** Drawing a rectangle with `getFigure` and scanning the drawing with `getFigureRectangles`
      yields that one drawing. */
  lemma RenderRoundTrip(rect: Rect)
    requires rect.width >= 2 && rect.height >= 2
    ensures Rectangles(GetFigure(rect)) == [GetFigure(rect)]
  {
    RenderedRows(rect);
    DrawnScan(Rows(GetFigure(rect)), rect.width, rect.height);
  }

  // ---------------------------------------------------------------------
  // The documented decompositions

  /** A figure written as its rows, each followed by '\n'. */
  function Drawing(rows: seq<string>): string
    decreases |rows|
  {
    if rows == [] then [] else rows[0] + "\n" + Drawing(rows[1..])
  }

  /** The rows of a drawing are its rows and an empty last piece. */
  lemma {:induction false} DrawingRows(rows: seq<string>)
    requires forall k :: 0 <= k < |rows| ==> '\n' !in rows[k]
    ensures Rows(Drawing(rows)) == rows + [[]]
    decreases |rows|
  {
    if rows != [] {
      DrawingRows(rows[1..]);
      SplitLine(rows[0], Drawing(rows[1..]), '\n');
      assert rows == [rows[0]] + rows[1..];
    }
  }

  /** Cells that are not candidates can be skipped in a row's scan. */
  lemma {:induction false} ScanRowSkip(g: Grid, i: int, j: nat, k: nat)
    requires 0 <= i < |g| && j <= k <= |g[i]|
    requires forall c :: j <= c < k ==> !Candidate(g, i, c)
    ensures ScanRow(g, i, j) == ScanRow(g, i, k)
    decreases k - j
  {
    if j < k {
      assert !Candidate(g, i, j);
      var here := FromOrigin(g, i, j);
      assert here == [];
      ScanRowSkip(g, i, j + 1, k);
    }
  }

  const TileEdge: string := "+------+-----+"
  const TileSide: string := "|      |     |"

  /** Two tiles side by side, sharing their middle edge. */
  function TwoTiles(): Grid {
    [TileEdge, TileSide, TileSide, TileEdge, ""]
  }

  lemma TwoTilesCorners(g: Grid)
    requires g == TwoTiles()
    ensures Candidate(g, 0, 0) && ClosedBoundary(g, 0, 0, 8, 4)
    ensures Candidate(g, 0, 7) && ClosedBoundary(g, 0, 7, 7, 4)
  {
    assert g[0] == TileEdge && g[1] == TileSide && g[2] == TileSide && g[3] == TileEdge;
    forall c | 0 < c < 13 && c != 7 ensures g[0][c] == '-' && g[3][c] == '-' {
    }
  }

  lemma TwoTilesFirstRow(g: Grid)
    requires g == TwoTiles()
    ensures ScanRow(g, 0, 0) == [GetFigure(Rect(8, 4)), GetFigure(Rect(7, 4))]
  {
    assert g[0] == TileEdge;
    TwoTilesCorners(g);
    TraceIff(g, 0, 0, 8, 4);
    TraceIff(g, 0, 7, 7, 4);
    assert FromOrigin(g, 0, 0) == [GetFigure(Rect(8, 4))];
    assert FromOrigin(g, 0, 7) == [GetFigure(Rect(7, 4))];
    ScanRowSkip(g, 0, 1, 7);
    ScanRowNone(g, 0, 8);
    assert ScanRow(g, 0, 0) == FromOrigin(g, 0, 0) + ScanRow(g, 0, 1);
    assert ScanRow(g, 0, 7) == FromOrigin(g, 0, 7) + ScanRow(g, 0, 8);
  }

  lemma TwoTilesOtherRows(g: Grid)
    requires g == TwoTiles()
    ensures ScanRows(g, 1) == []
  {
    assert g[1] == TileSide && g[2] == TileSide && g[3] == TileEdge && g[4] == "";
    forall r, c | 1 <= r < |g| && 0 <= c ensures !Candidate(g, r, c) {
      if r == 3 {
        assert !RowPresent(g, 4);
      }
    }
    ScanRowsNone(g, 1);
  }

  /** Two tiles side by side decompose into the two tiles, left first. */
  lemma TwoTilesExample()
    ensures Rectangles(Drawing([TileEdge, TileSide, TileSide, TileEdge])) ==
      [GetFigure(Rect(8, 4)), GetFigure(Rect(7, 4))]
  {
    DrawingRows([TileEdge, TileSide, TileSide, TileEdge]);
    var g := Rows(Drawing([TileEdge, TileSide, TileSide, TileEdge]));
    assert g == TwoTiles();
    TwoTilesFirstRow(g);
    TwoTilesOtherRows(g);
    assert ScanRows(g, 0) == ScanRow(g, 0, 0) + ScanRows(g, 1);
  }

  const FrameEdge: string := "+------------+"
  const FrameSide: string := "|            |"

  /** The first documented figure: a frame standing on the two tiles. */
  function FrameOnTiles(): Grid {
    [FrameEdge, FrameSide, FrameSide, FrameSide, TileEdge, TileSide, TileSide, TileEdge, ""]
  }

  lemma FrameOnTilesCorners(g: Grid)
    requires g == FrameOnTiles()
    ensures Candidate(g, 0, 0) && ClosedBoundary(g, 0, 0, 14, 5)
    ensures Candidate(g, 4, 0) && ClosedBoundary(g, 4, 0, 8, 4)
    ensures Candidate(g, 4, 7) && ClosedBoundary(g, 4, 7, 7, 4)
  {
    assert g[0] == FrameEdge && g[1] == FrameSide && g[2] == FrameSide && g[3] == FrameSide;
    assert g[4] == TileEdge && g[5] == TileSide && g[6] == TileSide && g[7] == TileEdge;
    forall c | 0 < c < 13 ensures g[0][c] == '-' {
    }
    forall c | 0 < c < 13 && c != 7 ensures g[4][c] == '-' && g[7][c] == '-' {
    }
    assert PassesH(g, 4, 7, -1, '|');
  }

  lemma FrameOnTilesTopRow(g: Grid)
    requires g == FrameOnTiles()
    ensures ScanRow(g, 0, 0) == [GetFigure(Rect(14, 5))]
  {
    assert g[0] == FrameEdge;
    FrameOnTilesCorners(g);
    TraceIff(g, 0, 0, 14, 5);
    assert FromOrigin(g, 0, 0) == [GetFigure(Rect(14, 5))];
    ScanRowNone(g, 0, 1);
    assert ScanRow(g, 0, 0) == FromOrigin(g, 0, 0) + ScanRow(g, 0, 1);
  }

  lemma FrameOnTilesTileRow(g: Grid)
    requires g == FrameOnTiles()
    ensures ScanRow(g, 4, 0) == [GetFigure(Rect(8, 4)), GetFigure(Rect(7, 4))]
  {
    assert g[4] == TileEdge;
    FrameOnTilesCorners(g);
    TraceIff(g, 4, 0, 8, 4);
    TraceIff(g, 4, 7, 7, 4);
    assert FromOrigin(g, 4, 0) == [GetFigure(Rect(8, 4))];
    assert FromOrigin(g, 4, 7) == [GetFigure(Rect(7, 4))];
    ScanRowSkip(g, 4, 1, 7);
    ScanRowNone(g, 4, 8);
    assert ScanRow(g, 4, 0) == FromOrigin(g, 4, 0) + ScanRow(g, 4, 1);
    assert ScanRow(g, 4, 7) == FromOrigin(g, 4, 7) + ScanRow(g, 4, 8);
  }

  lemma FrameOnTilesFrameRows(g: Grid)
    requires g == FrameOnTiles()
    ensures ScanRow(g, 1, 0) == [] && ScanRow(g, 2, 0) == [] && ScanRow(g, 3, 0) == []
  {
    assert g[1] == FrameSide && g[2] == FrameSide && g[3] == FrameSide;
    ScanRowNone(g, 1, 0);
    ScanRowNone(g, 2, 0);
    ScanRowNone(g, 3, 0);
  }

  lemma FrameOnTilesLowRows(g: Grid)
    requires g == FrameOnTiles()
    ensures ScanRows(g, 5) == []
  {
    assert g[5] == TileSide && g[6] == TileSide && g[7] == TileEdge && g[8] == "";
    forall r, c | 5 <= r < |g| && 0 <= c ensures !Candidate(g, r, c) {
      if r == 7 {
        assert !RowPresent(g, 8);
      }
    }
    ScanRowsNone(g, 5);
  }

  /** Lines 243-250: the frame comes first, then the two tiles below it, left first. */
  lemma FrameOnTilesExample()
    ensures Rectangles(Drawing([FrameEdge, FrameSide, FrameSide, FrameSide,
                                TileEdge, TileSide, TileSide, TileEdge])) ==
      [GetFigure(Rect(14, 5)), GetFigure(Rect(8, 4)), GetFigure(Rect(7, 4))]
  {
    FrameOnTilesScan([FrameEdge, FrameSide, FrameSide, FrameSide, TileEdge, TileSide, TileSide, TileEdge]);
  }

  lemma FrameOnTilesScan(rows: seq<string>)
    requires rows == [FrameEdge, FrameSide, FrameSide, FrameSide, TileEdge, TileSide, TileSide, TileEdge]
    ensures Rectangles(Drawing(rows)) == [GetFigure(Rect(14, 5)), GetFigure(Rect(8, 4)), GetFigure(Rect(7, 4))]
  {
    DrawingRows(rows);
    assert rows + [[]] == FrameOnTiles();
    FrameOnTilesRows(Rows(Drawing(rows)));
  }

  lemma FrameOnTilesRows(g: Grid)
    requires g == FrameOnTiles()
    ensures ScanRows(g, 0) == [GetFigure(Rect(14, 5)), GetFigure(Rect(8, 4)), GetFigure(Rect(7, 4))]
  {
    FrameOnTilesTopRow(g);
    FrameOnTilesTileRow(g);
    FrameOnTilesFrameRows(g);
    FrameOnTilesLowRows(g);
    assert ScanRows(g, 4) == ScanRow(g, 4, 0) + ScanRows(g, 5);
    assert ScanRows(g, 3) == ScanRow(g, 3, 0) + ScanRows(g, 4);
    assert ScanRows(g, 2) == ScanRow(g, 2, 0) + ScanRows(g, 3);
    assert ScanRows(g, 1) == ScanRow(g, 1, 0) + ScanRows(g, 2);
    assert ScanRows(g, 0) == ScanRow(g, 0, 0) + ScanRows(g, 1);
  }

  const CapEdge: string := "   +-----+     "
  const CapSide: string := "   |     |     "
  const BaseTop: string := "+--+-----+----+"
  const BaseSide: string := "|             |"
  const BaseEdge: string := "+-------------+"

  /** The second documented figure: a small box standing on a wide one. */
  function BoxOnBase(): Grid {
    [CapEdge, CapSide, BaseTop, BaseSide, BaseSide, BaseEdge, ""]
  }

  lemma BoxOnBaseCorners(g: Grid)
    requires g == BoxOnBase()
    ensures Candidate(g, 0, 3) && ClosedBoundary(g, 0, 3, 7, 3)
    ensures Candidate(g, 2, 0) && ClosedBoundary(g, 2, 0, 15, 4)
  {
    assert g[0] == CapEdge && g[1] == CapSide && g[2] == BaseTop;
    assert g[3] == BaseSide && g[4] == BaseSide && g[5] == BaseEdge;
    forall c | 3 < c < 9 ensures g[0][c] == '-' && g[2][c] == '-' {
    }
    forall c | 0 < c < 14 ensures g[5][c] == '-' {
    }
    forall c | 0 < c < 14 && c != 3 && c != 9 ensures g[2][c] == '-' {
    }
    assert PassesH(g, 2, 3, 1, '|') && PassesH(g, 2, 9, 1, '|');
  }

  lemma BoxOnBaseBoxRow(g: Grid)
    requires g == BoxOnBase()
    ensures ScanRow(g, 0, 0) == [GetFigure(Rect(7, 3))]
  {
    assert g[0] == CapEdge;
    BoxOnBaseCorners(g);
    TraceIff(g, 0, 3, 7, 3);
    assert FromOrigin(g, 0, 3) == [GetFigure(Rect(7, 3))];
    ScanRowSkip(g, 0, 0, 3);
    ScanRowNone(g, 0, 4);
    assert ScanRow(g, 0, 3) == FromOrigin(g, 0, 3) + ScanRow(g, 0, 4);
  }

  lemma BoxOnBaseBaseRow(g: Grid)
    requires g == BoxOnBase()
    ensures ScanRow(g, 2, 0) == [GetFigure(Rect(15, 4))]
  {
    assert g[2] == BaseTop && g[3] == BaseSide;
    BoxOnBaseCorners(g);
    TraceIff(g, 2, 0, 15, 4);
    assert FromOrigin(g, 2, 0) == [GetFigure(Rect(15, 4))];
    ScanRowNone(g, 2, 1);
    assert ScanRow(g, 2, 0) == FromOrigin(g, 2, 0) + ScanRow(g, 2, 1);
  }

  lemma BoxOnBaseQuietRows(g: Grid)
    requires g == BoxOnBase()
    ensures ScanRow(g, 1, 0) == [] && ScanRows(g, 3) == []
  {
    assert g[1] == CapSide && g[3] == BaseSide && g[4] == BaseSide && g[5] == BaseEdge && g[6] == "";
    ScanRowNone(g, 1, 0);
    forall r, c | 3 <= r < |g| && 0 <= c ensures !Candidate(g, r, c) {
      if r == 5 {
        assert !RowPresent(g, 6);
      }
    }
    ScanRowsNone(g, 3);
  }

  /** Lines 254-259: the small box comes first, then the wide one it stands on. */
  lemma BoxOnBaseExample()
    ensures Rectangles(Drawing([CapEdge, CapSide, BaseTop, BaseSide, BaseSide, BaseEdge])) ==
      [GetFigure(Rect(7, 3)), GetFigure(Rect(15, 4))]
  {
    BoxOnBaseScan([CapEdge, CapSide, BaseTop, BaseSide, BaseSide, BaseEdge]);
  }

  lemma BoxOnBaseScan(rows: seq<string>)
    requires rows == [CapEdge, CapSide, BaseTop, BaseSide, BaseSide, BaseEdge]
    ensures Rectangles(Drawing(rows)) == [GetFigure(Rect(7, 3)), GetFigure(Rect(15, 4))]
  {
    DrawingRows(rows);
    assert rows + [[]] == BoxOnBase();
    BoxOnBaseRows(Rows(Drawing(rows)));
  }

  lemma BoxOnBaseRows(g: Grid)
    requires g == BoxOnBase()
    ensures ScanRows(g, 0) == [GetFigure(Rect(7, 3)), GetFigure(Rect(15, 4))]
  {
    BoxOnBaseBoxRow(g);
    BoxOnBaseBaseRow(g);
    BoxOnBaseQuietRows(g);
    assert ScanRows(g, 2) == ScanRow(g, 2, 0) + ScanRows(g, 3);
    assert ScanRows(g, 1) == ScanRow(g, 1, 0) + ScanRows(g, 2);
    assert ScanRows(g, 0) == ScanRow(g, 0, 0) + ScanRows(g, 1);
  }
}
