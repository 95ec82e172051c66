/**
 * The quadrant rearrangement applied to magnitude and phase planes
 * (Methods.RearrangeQuadrants): the top-left block of cx x cy cells is swapped
 * with the bottom-right one and the top-right block with the bottom-left one,
 * where cx = Width / 2 and cy = Height / 2.  A grid is stored row-major, so
 * g[r][c] is the cell in row r (y) and column c (x).
 */
module Quadrants {

  /** Every row of `g` holds `w` cells: `g` is a grid of |g| rows and `w` columns. */
  predicate IsGrid<T>(g: seq<seq<T>>, w: nat) {
    forall r :: 0 <= r < |g| ==> |g[r]| == w
  }

  /** The contents of a 2-D array, its first dimension being the rows. */
  function Cells<T>(a: array2<T>): (g: seq<seq<T>>)
    reads a
    ensures |g| == a.Length0 && IsGrid(g, a.Length1)
    ensures forall r, c :: 0 <= r < a.Length0 && 0 <= c < a.Length1 ==> g[r][c] == a[r, c]
  {
    seq(a.Length0, r requires 0 <= r < a.Length0 reads a =>
      seq(a.Length1, c requires 0 <= c < a.Length1 reads a => a[r, c]))
  }

  /** Two grids of the same shape that agree on every cell are equal. */
  lemma GridsEqual<T>(x: seq<seq<T>>, y: seq<seq<T>>, w: nat)
    requires |x| == |y| && IsGrid(x, w) && IsGrid(y, w)
    requires forall r, c :: 0 <= r < |x| && 0 <= c < w ==> x[r][c] == y[r][c]
    ensures x == y
  {
    forall r | 0 <= r < |x|
      ensures x[r] == y[r]
    {
      assert forall c :: 0 <= c < w ==> x[r][c] == y[r][c];
    }
  }

  /** All cells of a grid, row after row. */
  function Flatten<T>(g: seq<seq<T>>): seq<T> {
    if g == [] then [] else g[0] + Flatten(g[1..])
  }

  lemma {:induction false} FlattenAppend<T>(a: seq<seq<T>>, b: seq<seq<T>>)
    ensures Flatten(a + b) == Flatten(a) + Flatten(b)
  {
    if a == [] {
      assert a + b == b;
    } else {
      assert (a + b)[1..] == a[1..] + b;
      FlattenAppend(a[1..], b);
    }
  }

  /** The first `k` cells of every row. */
  function Heads<T>(g: seq<seq<T>>, k: nat): (h: seq<seq<T>>)
    requires forall r :: 0 <= r < |g| ==> k <= |g[r]|
    ensures |h| == |g| && IsGrid(h, k)
    ensures forall r {:trigger h[r]} :: 0 <= r < |g| ==> h[r] == g[r][..k]
  {
    seq(|g|, r requires 0 <= r < |g| => g[r][..k])
  }

  /** Every row with its first `k` cells dropped. */
  function Tails<T>(g: seq<seq<T>>, k: nat): (t: seq<seq<T>>)
    requires forall r :: 0 <= r < |g| ==> k <= |g[r]|
    ensures |t| == |g|
    ensures forall r {:trigger t[r]} :: 0 <= r < |g| ==> t[r] == g[r][k..]
  {
    seq(|g|, r requires 0 <= r < |g| => g[r][k..])
  }

  /** Row-wise concatenation of two grids with the same number of rows. */
  function Join<T>(h: seq<seq<T>>, t: seq<seq<T>>): (j: seq<seq<T>>)
    requires |h| == |t|
    ensures |j| == |h|
    ensures forall r {:trigger j[r]} :: 0 <= r < |h| ==> j[r] == h[r] + t[r]
  {
    seq(|h|, r requires 0 <= r < |h| => h[r] + t[r])
  }

  /** A row of 2 * cx cells with its two halves exchanged. */
  function SwapHalves<T>(row: seq<T>, cx: nat): (s: seq<T>)
    requires |row| == 2 * cx
    ensures |s| == 2 * cx
  {
    row[cx..] + row[..cx]
  }

  function SwapRows<T>(rows: seq<seq<T>>, cx: nat): (s: seq<seq<T>>)
    requires IsGrid(rows, 2 * cx)
    ensures |s| == |rows| && IsGrid(s, 2 * cx)
    ensures forall r {:trigger s[r]} :: 0 <= r < |rows| ==> s[r] == SwapHalves(rows[r], cx)
  {
    seq(|rows|, r requires 0 <= r < |rows| => SwapHalves(rows[r], cx))
  }

  /**
   * The rearrangement built block by block, as the source's region copies do:
   * the left 2 * cx columns of the first 2 * cy rows are the four quadrants; the
   * rows of the lower pair move up, the rows of the upper pair move down, and
   * each of those rows has its halves exchanged.  A last odd row and the cells
   * right of column 2 * cx stay put.
   */
  function BlockRearranged<T>(g: seq<seq<T>>, w: nat): (r: seq<seq<T>>)
    requires IsGrid(g, w)
    ensures |r| == |g| && IsGrid(r, w)
  {
    Join(Moved(Heads(g, 2 * (w / 2)), |g| / 2, w / 2), Tails(g, 2 * (w / 2)))
  }

  /** The quadrant part of the block construction: the rows of the lower pair above those of the upper pair, halves exchanged. */
  function Moved<T>(heads: seq<seq<T>>, cy: nat, cx: nat): (m: seq<seq<T>>)
    requires IsGrid(heads, 2 * cx) && 2 * cy <= |heads|
    ensures |m| == |heads| && IsGrid(m, 2 * cx)
  {
    SwapRows(heads[cy..2 * cy], cx) + SwapRows(heads[..cy], cx) + heads[2 * cy..]
  }

  /** The index that index `i` of an axis of length `n` is exchanged with. */
  function Partner(n: nat, i: nat): nat {
    if i < n / 2 then i + n / 2 else if i < 2 * (n / 2) then i - n / 2 else i
  }

  /** Whether cell (r, c) of a rows x cols grid lies in one of the four quadrants. */
  predicate InQuadrant(rows: nat, cols: nat, r: nat, c: nat) {
    r < 2 * (rows / 2) && c < 2 * (cols / 2)
  }

  lemma PartnerInvolution(n: nat, i: nat)
    requires i < n
    ensures Partner(n, i) < n
    ensures Partner(n, Partner(n, i)) == i
    ensures i < 2 * (n / 2) <==> Partner(n, i) < 2 * (n / 2)
  {
  }

  /** Row `r` of the rearranged grid. */
  function QuadrantRow<T>(g: seq<seq<T>>, w: nat, r: nat): (row: seq<T>)
    requires IsGrid(g, w) && r < |g|
    ensures |row| == w
  {
    PartnerInvolution(|g|, r);
    seq(w, c requires 0 <= c < w =>
      PartnerInvolution(w, c);
      if InQuadrant(|g|, w, r, c) then g[Partner(|g|, r)][Partner(w, c)] else g[r][c])
  }

  /**
   * The grid after Methods.RearrangeQuadrants, cell by cell: a cell of one of
   * the four cy x cx quadrants takes the value of the cell cy rows and cx
   * columns away across the centre; a last odd row or column keeps its cells.
   */
  function Rearranged<T>(g: seq<seq<T>>, w: nat): (q: seq<seq<T>>)
    requires IsGrid(g, w)
    ensures |q| == |g| && IsGrid(q, w)
  {
    seq(|g|, r requires 0 <= r < |g| => QuadrantRow(g, w, r))
  }

  /** Where each cell of the rearranged grid comes from. */
  lemma RearrangedAt<T>(g: seq<seq<T>>, w: nat, r: nat, c: nat)
    requires IsGrid(g, w) && r < |g| && c < w
    ensures Rearranged(g, w)[r][c] ==
      if InQuadrant(|g|, w, r, c) then g[Partner(|g|, r)][Partner(w, c)] else g[r][c]
  {
    assert Rearranged(g, w)[r] == QuadrantRow(g, w, r);
  }

  /** Row `r` of the quadrant part: the row cy away with halves exchanged, or the row itself below the quadrants. */
  lemma MovedRow<T>(heads: seq<seq<T>>, cy: nat, cx: nat, r: nat)
    requires IsGrid(heads, 2 * cx) && 2 * cy <= |heads| && r < |heads|
    ensures Moved(heads, cy, cx)[r] ==
      if r < cy then SwapHalves(heads[r + cy], cx)
      else if r < 2 * cy then SwapHalves(heads[r - cy], cx)
      else heads[r]
  {
    var upper, lower := SwapRows(heads[cy..2 * cy], cx), SwapRows(heads[..cy], cx);
    if r < cy {
      assert Moved(heads, cy, cx)[r] == upper[r];
    } else if r < 2 * cy {
      assert Moved(heads, cy, cx)[r] == lower[r - cy];
    } else {
      assert Moved(heads, cy, cx)[r] == heads[2 * cy..][r - 2 * cy];
    }
  }

  lemma SwapHalvesAt<T>(row: seq<T>, cx: nat, c: nat)
    requires |row| == 2 * cx && c < 2 * cx
    ensures SwapHalves(row, cx)[c] == row[if c < cx then c + cx else c - cx]
  {
  }

  /** Row `r` of the block construction: the row of the quadrant part, then the cells right of the quadrants. */
  lemma BlockRowSplit<T>(g: seq<seq<T>>, w: nat, r: nat)
    requires IsGrid(g, w) && r < |g|
    ensures BlockRearranged(g, w)[r] == Moved(Heads(g, 2 * (w / 2)), |g| / 2, w / 2)[r] + g[r][2 * (w / 2)..]
  {
  }

  /** Cells right of the quadrants stay put in the block construction. */
  lemma BlockCellRight<T>(g: seq<seq<T>>, w: nat, r: nat, c: nat)
    requires IsGrid(g, w) && r < |g| && 2 * (w / 2) <= c < w
    ensures BlockRearranged(g, w)[r][c] == g[r][c]
  {
    var k := 2 * (w / 2);
    BlockRowSplit(g, w, r);
    assert |Moved(Heads(g, k), |g| / 2, w / 2)[r]| == k;
    assert BlockRearranged(g, w)[r][c] == g[r][k..][c - k];
  }

  /** Cells of a last odd row stay put in the block construction. */
  lemma BlockCellBelow<T>(g: seq<seq<T>>, w: nat, r: nat, c: nat)
    requires IsGrid(g, w) && 2 * (|g| / 2) <= r < |g| && c < 2 * (w / 2)
    ensures BlockRearranged(g, w)[r][c] == g[r][c]
  {
    var heads := Heads(g, 2 * (w / 2));
    BlockRowSplit(g, w, r);
    MovedRow(heads, |g| / 2, w / 2, r);
    assert BlockRearranged(g, w)[r][c] == heads[r][c];
  }

  /** A row through the quadrants of the block construction is its partner row with halves exchanged, then its own right part. */
  lemma BlockRowQuadrant<T>(g: seq<seq<T>>, w: nat, r: nat)
    requires IsGrid(g, w) && r < 2 * (|g| / 2)
    ensures Partner(|g|, r) < |g|
    ensures BlockRearranged(g, w)[r] == SwapHalves(g[Partner(|g|, r)][..2 * (w / 2)], w / 2) + g[r][2 * (w / 2)..]
  {
    var cy, cx := |g| / 2, w / 2;
    var heads := Heads(g, 2 * cx);
    BlockRowSplit(g, w, r);
    MovedRow(heads, cy, cx, r);
    assert Partner(|g|, r) == if r < cy then r + cy else r - cy;
  }

  /** A quadrant cell of the block construction comes from its partner cell. */
  lemma BlockCellQuadrant<T>(g: seq<seq<T>>, w: nat, r: nat, c: nat)
    requires IsGrid(g, w) && r < 2 * (|g| / 2) && c < 2 * (w / 2)
    ensures BlockRearranged(g, w)[r][c] == g[Partner(|g|, r)][Partner(w, c)]
  {
    BlockRowQuadrant(g, w, r);
    var partner := g[Partner(|g|, r)][..2 * (w / 2)];
    SwapHalvesAt(partner, w / 2, c);
    assert BlockRearranged(g, w)[r][c] == SwapHalves(partner, w / 2)[c];
  }

  /** Where each cell of the block construction comes from. */
  lemma BlockCell<T>(g: seq<seq<T>>, w: nat, r: nat, c: nat)
    requires IsGrid(g, w) && r < |g| && c < w
    ensures BlockRearranged(g, w)[r][c] ==
      if InQuadrant(|g|, w, r, c) then g[Partner(|g|, r)][Partner(w, c)] else g[r][c]
  {
    if c >= 2 * (w / 2) {
      BlockCellRight(g, w, r, c);
    } else if r >= 2 * (|g| / 2) {
      BlockCellBelow(g, w, r, c);
    } else {
      BlockCellQuadrant(g, w, r, c);
    }
  }

  /** The block construction and the cell-by-cell definition give the same grid. */
  lemma BlocksMatchCells<T>(g: seq<seq<T>>, w: nat)
    requires IsGrid(g, w)
    ensures BlockRearranged(g, w) == Rearranged(g, w)
  {
    var b, q := BlockRearranged(g, w), Rearranged(g, w);
    forall r, c | 0 <= r < |g| && 0 <= c < w
      ensures b[r][c] == q[r][c]
    {
      BlockCell(g, w, r, c);
      RearrangedAt(g, w, r, c);
    }
    GridsEqual(b, q, w);
  }

  /** Applying the rearrangement twice gives back the grid, cell for cell. */
  lemma RearrangedTwice<T>(g: seq<seq<T>>, w: nat)
    requires IsGrid(g, w)
    ensures Rearranged(Rearranged(g, w), w) == g
  {
    var once := Rearranged(g, w);
    var twice := Rearranged(once, w);
    forall r, c | 0 <= r < |g| && 0 <= c < w
      ensures twice[r][c] == g[r][c]
    {
      RearrangedAt(once, w, r, c);
      PartnerInvolution(|g|, r);
      PartnerInvolution(w, c);
      if InQuadrant(|g|, w, r, c) {
        RearrangedAt(g, w, Partner(|g|, r), Partner(w, c));
      } else {
        RearrangedAt(g, w, r, c);
      }
    }
    GridsEqual(twice, g, w);
  }

  /** The four swaps of cells, stated for each position of the top-left quadrant. */
  lemma QuadrantsSwapped<T>(g: seq<seq<T>>, w: nat, r: nat, c: nat)
    requires IsGrid(g, w) && r < |g| / 2 && c < w / 2
    ensures var cy, cx, q := |g| / 2, w / 2, Rearranged(g, w);
      && q[r][c] == g[r + cy][c + cx] && q[r + cy][c + cx] == g[r][c]
      && q[r][c + cx] == g[r + cy][c] && q[r + cy][c] == g[r][c + cx]
  {
    var cy, cx := |g| / 2, w / 2;
    RearrangedAt(g, w, r, c);
    RearrangedAt(g, w, r + cy, c + cx);
    RearrangedAt(g, w, r, c + cx);
    RearrangedAt(g, w, r + cy, c);
  }

  /** With an odd height the last row is untouched; with an odd width the last column is. */
  lemma OddLinesFixed<T>(g: seq<seq<T>>, w: nat)
    requires IsGrid(g, w)
    ensures |g| % 2 == 1 ==> Rearranged(g, w)[|g| - 1] == g[|g| - 1]
    ensures w % 2 == 1 ==> forall r :: 0 <= r < |g| ==> Rearranged(g, w)[r][w - 1] == g[r][w - 1]
  {
    var q := Rearranged(g, w);
    if |g| % 2 == 1 {
      var last := |g| - 1;
      var row, original := q[last], g[last];
      forall c | 0 <= c < w
        ensures row[c] == original[c]
      {
        RearrangedAt(g, w, last, c);
      }
    }
    if w % 2 == 1 {
      forall r | 0 <= r < |g|
        ensures q[r][w - 1] == g[r][w - 1]
      {
        RearrangedAt(g, w, r, w - 1);
      }
    }
  }

  lemma {:induction false} SwapRowsPermutes<T>(rows: seq<seq<T>>, cx: nat)
    requires IsGrid(rows, 2 * cx)
    ensures multiset(Flatten(SwapRows(rows, cx))) == multiset(Flatten(rows))
  {
    if rows != [] {
      var s := SwapRows(rows, cx);
      assert s[1..] == SwapRows(rows[1..], cx);
      assert rows[0] == rows[0][..cx] + rows[0][cx..];
      SwapRowsPermutes(rows[1..], cx);
    }
  }

  lemma {:induction false} JoinPermutes<T>(h: seq<seq<T>>, t: seq<seq<T>>)
    requires |h| == |t|
    ensures multiset(Flatten(Join(h, t))) == multiset(Flatten(h)) + multiset(Flatten(t))
  {
    if h != [] {
      assert Join(h, t)[1..] == Join(h[1..], t[1..]);
      JoinPermutes(h[1..], t[1..]);
    }
  }

  /** Putting the first `k` cells of each row back before the rest gives the grid back. */
  lemma HeadsTailsJoin<T>(g: seq<seq<T>>, w: nat, k: nat)
    requires IsGrid(g, w) && k <= w
    ensures Join(Heads(g, k), Tails(g, k)) == g
  {
    var j := Join(Heads(g, k), Tails(g, k));
    forall r | 0 <= r < |g|
      ensures j[r] == g[r]
    {
      assert g[r] == g[r][..k] + g[r][k..];
    }
  }

  /** Exchanging two runs of rows and swapping the halves of each of their rows only moves cells. */
  lemma MovedPermutes<T>(a: seq<seq<T>>, b: seq<seq<T>>, rest: seq<seq<T>>, cx: nat)
    requires IsGrid(a, 2 * cx) && IsGrid(b, 2 * cx)
    ensures multiset(Flatten(SwapRows(b, cx) + SwapRows(a, cx) + rest)) == multiset(Flatten(a + b + rest))
  {
    var sa, sb := SwapRows(a, cx), SwapRows(b, cx);
    SwapRowsPermutes(a, cx);
    SwapRowsPermutes(b, cx);
    FlattenAppend(sb + sa, rest);
    FlattenAppend(sb, sa);
    FlattenAppend(a + b, rest);
    FlattenAppend(a, b);
    calc {
      multiset(Flatten(sb + sa + rest));
      multiset(Flatten(sb)) + multiset(Flatten(sa)) + multiset(Flatten(rest));
      multiset(Flatten(a)) + multiset(Flatten(b)) + multiset(Flatten(rest));
      multiset(Flatten(a + b + rest));
    }
  }

  /** The block construction only moves cells. */
  lemma BlockPermutes<T>(g: seq<seq<T>>, w: nat)
    requires IsGrid(g, w)
    ensures multiset(Flatten(BlockRearranged(g, w))) == multiset(Flatten(g))
  {
    var cy, cx := |g| / 2, w / 2;
    var heads, tails := Heads(g, 2 * cx), Tails(g, 2 * cx);
    var moved := Moved(heads, cy, cx);
    assert heads == heads[..cy] + heads[cy..2 * cy] + heads[2 * cy..];
    MovedPermutes(heads[..cy], heads[cy..2 * cy], heads[2 * cy..], cx);
    JoinPermutes(moved, tails);
    JoinPermutes(heads, tails);
    HeadsTailsJoin(g, w, 2 * cx);
  }

  /** The rearrangement only moves cells: the multiset of all cells is unchanged. */
  lemma RearrangedPermutes<T>(g: seq<seq<T>>, w: nat)
    requires IsGrid(g, w)
    ensures multiset(Flatten(Rearranged(g, w))) == multiset(Flatten(g))
  {
    BlocksMatchCells(g, w);
    BlockPermutes(g, w);
  }

  /**
   * `y` is `x` with the h x bw blocks at (r1, c1) and (r2, c2) exchanged and
   * every other cell kept.
   */
  ghost predicate BlocksSwapped<T>(x: seq<seq<T>>, y: seq<seq<T>>, w: nat,
                                   r1: nat, c1: nat, r2: nat, c2: nat, h: nat, bw: nat)
    requires IsGrid(x, w) && IsGrid(y, w) && |x| == |y|
    requires r1 + h <= |x| && c1 + bw <= w && r2 + h <= |x| && c2 + bw <= w
  {
    forall i, j {:trigger y[i][j]} :: 0 <= i < |x| && 0 <= j < w ==>
      y[i][j] == if r1 <= i < r1 + h && c1 <= j < c1 + bw then x[r2 + (i - r1)][c2 + (j - c1)]
                 else if r2 <= i < r2 + h && c2 <= j < c2 + bw then x[r1 + (i - r2)][c1 + (j - c2)]
                 else x[i][j]
  }

  /** Swapping q0 with q3 and then q1 with q2 yields the rearranged grid. */
  lemma TwoSwapsRearrange<T>(g0: seq<seq<T>>, g1: seq<seq<T>>, g2: seq<seq<T>>, w: nat)
    requires IsGrid(g0, w) && IsGrid(g1, w) && IsGrid(g2, w) && |g0| == |g1| == |g2|
    requires BlocksSwapped(g0, g1, w, 0, 0, |g0| / 2, w / 2, |g0| / 2, w / 2)
    requires BlocksSwapped(g1, g2, w, 0, w / 2, |g0| / 2, 0, |g0| / 2, w / 2)
    ensures g2 == Rearranged(g0, w)
  {
    var cy, cx := |g0| / 2, w / 2;
    forall r, c | 0 <= r < |g0| && 0 <= c < w
      ensures g2[r][c] == Rearranged(g0, w)[r][c]
    {
      RearrangedAt(g0, w, r, c);
      if r < cy && c < cx {
        assert g2[r][c] == g1[r][c] == g0[r + cy][c + cx];
      } else if cy <= r < 2 * cy && cx <= c < 2 * cx {
        assert g2[r][c] == g1[r][c] == g0[r - cy][c - cx];
      } else if r < cy && cx <= c < 2 * cx {
        assert g2[r][c] == g1[cy + r][c - cx] == g0[cy + r][c - cx];
      } else if cy <= r < 2 * cy && c < cx {
        assert g2[r][c] == g1[r - cy][cx + c] == g0[r - cy][cx + c];
      } else {
        assert g2[r][c] == g1[r][c] == g0[r][c];
      }
    }
    GridsEqual(g2, Rearranged(g0, w), w);
  }

  /** Row `i` of a paste (see Pasted). */
  function PastedRow<T>(row: seq<T>, s: seq<seq<T>>, i: nat,
                        sr: nat, sc: nat, dr: nat, dc: nat, h: nat, bw: nat): (r: seq<T>)
    requires dc + bw <= |row|
    requires dr <= i < dr + h ==> sr + (i - dr) < |s| && sc + bw <= |s[sr + (i - dr)]|
    ensures |r| == |row|
    ensures forall j {:trigger r[j]} :: 0 <= j < |row| ==>
      r[j] == if dr <= i < dr + h && dc <= j < dc + bw then s[sr + (i - dr)][sc + (j - dc)] else row[j]
  {
    if dr <= i < dr + h then row[..dc] + s[sr + (i - dr)][sc..sc + bw] + row[dc + bw..] else row
  }

  /**
   * `d` with its h x bw block at (dr, dc) replaced by the block of `s` at
   * (sr, sc), every other cell kept.
   */
  function Pasted<T>(d: seq<seq<T>>, s: seq<seq<T>>, w: nat,
                     sr: nat, sc: nat, dr: nat, dc: nat, h: nat, bw: nat): (r: seq<seq<T>>)
    requires IsGrid(d, w) && dr + h <= |d| && dc + bw <= w
    requires forall i :: 0 <= i < |s| ==> sc + bw <= |s[i]|
    requires sr + h <= |s|
    ensures |r| == |d| && IsGrid(r, w)
    ensures forall i, j {:trigger r[i][j]} :: 0 <= i < |d| && 0 <= j < w ==>
      r[i][j] == if dr <= i < dr + h && dc <= j < dc + bw then s[sr + (i - dr)][sc + (j - dc)] else d[i][j]
  {
    seq(|d|, i requires 0 <= i < |d| => PastedRow(d[i], s, i, sr, sc, dr, dc, h, bw))
  }

  /** Copies `w` cells of row `sr` of `src`, from column `sc` on, to row `dr` of `dst` from column `dc` on. */
  method CopyRow<T>(src: array2<T>, sr: nat, sc: nat, dst: array2<T>, dr: nat, dc: nat, w: nat)
    requires sr < src.Length0 && sc + w <= src.Length1
    requires dr < dst.Length0 && dc + w <= dst.Length1
    requires src == dst ==> sr != dr || sc + w <= dc || dc + w <= sc
    modifies dst
    ensures forall p, q {:trigger dst[p, q]} :: 0 <= p < dst.Length0 && 0 <= q < dst.Length1 ==>
      dst[p, q] == if p == dr && dc <= q < dc + w then old(src[sr, sc + (q - dc)]) else old(dst[p, q])
  {
    for j := 0 to w
      invariant forall p, q {:trigger dst[p, q]} :: 0 <= p < dst.Length0 && 0 <= q < dst.Length1 ==>
        dst[p, q] == if p == dr && dc <= q < dc + j then old(src[sr, sc + (q - dc)]) else old(dst[p, q])
      invariant forall q :: sc <= q < sc + w ==> src[sr, q] == old(src[sr, q])
    {
      dst[dr, dc + j] := src[sr, sc + j];
    }
  }

  /**
   * Copies the h x w block at (sr, sc) of `src` onto the block at (dr, dc) of `dst`,
   * as Mat.CopyTo does between two regions of interest.  When both are the same
   * array the blocks must not overlap.
   */
  method CopyBlock<T>(src: array2<T>, sr: nat, sc: nat, dst: array2<T>, dr: nat, dc: nat, h: nat, w: nat)
    requires sr + h <= src.Length0 && sc + w <= src.Length1
    requires dr + h <= dst.Length0 && dc + w <= dst.Length1
    requires src == dst ==> sr + h <= dr || dr + h <= sr || sc + w <= dc || dc + w <= sc
    modifies dst
    ensures Cells(dst) == Pasted(old(Cells(dst)), old(Cells(src)), dst.Length1, sr, sc, dr, dc, h, w)
  {
    ghost var d0, s0 := Cells(dst), Cells(src);
    for i := 0 to h
      invariant forall p, q {:trigger dst[p, q]} :: 0 <= p < dst.Length0 && 0 <= q < dst.Length1 ==>
        dst[p, q] == if dr <= p < dr + i && dc <= q < dc + w
                     then old(src[sr + (p - dr), sc + (q - dc)]) else old(dst[p, q])
      invariant src != dst ==> forall p, q {:trigger src[p, q]} :: 0 <= p < src.Length0 && 0 <= q < src.Length1 ==>
        src[p, q] == old(src[p, q])
    {
      CopyRow(src, sr + i, sc, dst, dr + i, dc, w);
    }
    forall p, q | 0 <= p < dst.Length0 && 0 <= q < dst.Length1
      ensures dst[p, q] == if dr <= p < dr + h && dc <= q < dc + w then s0[sr + (p - dr)][sc + (q - dc)] else d0[p][q]
    {
    }
    PastedCells(dst, d0, s0, sr, sc, dr, dc, h, w);
  }

  /** An array whose cells are those of Pasted holds exactly that grid. */
  lemma PastedCells<T>(dst: array2<T>, d0: seq<seq<T>>, s0: seq<seq<T>>, sr: nat, sc: nat, dr: nat, dc: nat, h: nat, w: nat)
    requires |d0| == dst.Length0 && IsGrid(d0, dst.Length1) && dr + h <= |d0| && dc + w <= dst.Length1
    requires forall i :: 0 <= i < |s0| ==> sc + w <= |s0[i]|
    requires sr + h <= |s0|
    requires forall p, q :: 0 <= p < dst.Length0 && 0 <= q < dst.Length1 ==>
      dst[p, q] == if dr <= p < dr + h && dc <= q < dc + w then s0[sr + (p - dr)][sc + (q - dc)] else d0[p][q]
    ensures Cells(dst) == Pasted(d0, s0, dst.Length1, sr, sc, dr, dc, h, w)
  {
    GridsEqual(Cells(dst), Pasted(d0, s0, dst.Length1, sr, sc, dr, dc, h, w), dst.Length1);
  }

  /**
   * Saving block 1 to a scratch grid, copying block 2 over block 1 and then the
   * saved copy over block 2 swaps the two blocks, when they do not overlap.
   */
  lemma SwapThroughScratch<T>(x: seq<seq<T>>, saved: seq<seq<T>>, moved: seq<seq<T>>, y: seq<seq<T>>, w: nat,
                              r1: nat, c1: nat, r2: nat, c2: nat, h: nat, bw: nat)
    requires IsGrid(x, w) && IsGrid(y, w) && |y| == |x| == |moved| && IsGrid(moved, w)
    requires IsGrid(saved, bw) && h <= |saved|
    requires r1 + h <= |x| && c1 + bw <= w && r2 + h <= |x| && c2 + bw <= w
    requires r1 + h <= r2 || r2 + h <= r1 || c1 + bw <= c2 || c2 + bw <= c1
    requires forall i, j {:trigger saved[i][j]} :: 0 <= i < h && 0 <= j < bw ==> saved[i][j] == x[r1 + i][c1 + j]
    requires forall i, j {:trigger moved[i][j]} :: 0 <= i < |x| && 0 <= j < w ==>
      moved[i][j] == if r1 <= i < r1 + h && c1 <= j < c1 + bw then x[r2 + (i - r1)][c2 + (j - c1)] else x[i][j]
    requires forall i, j {:trigger y[i][j]} :: 0 <= i < |x| && 0 <= j < w ==>
      y[i][j] == if r2 <= i < r2 + h && c2 <= j < c2 + bw then saved[i - r2][j - c2] else moved[i][j]
    ensures BlocksSwapped(x, y, w, r1, c1, r2, c2, h, bw)
  {
    forall i, j {:trigger y[i][j]} | 0 <= i < |x| && 0 <= j < w
      ensures y[i][j] == if r1 <= i < r1 + h && c1 <= j < c1 + bw then x[r2 + (i - r1)][c2 + (j - c1)]
                         else if r2 <= i < r2 + h && c2 <= j < c2 + bw then x[r1 + (i - r2)][c1 + (j - c2)]
                         else x[i][j]
    {
      if r2 <= i < r2 + h && c2 <= j < c2 + bw {
        assert !(r1 <= i < r1 + h && c1 <= j < c1 + bw);
        assert y[i][j] == saved[i - r2][j - c2];
      } else {
        assert y[i][j] == moved[i][j];
      }
    }
  }

  /** Exchanges two disjoint h x w blocks of `a` through the scratch array `tmp`. */
  method SwapBlocks<T>(a: array2<T>, tmp: array2<T>, r1: nat, c1: nat, r2: nat, c2: nat, h: nat, w: nat)
    requires a != tmp && h == tmp.Length0 && w == tmp.Length1
    requires r1 + h <= a.Length0 && c1 + w <= a.Length1
    requires r2 + h <= a.Length0 && c2 + w <= a.Length1
    requires r1 + h <= r2 || r2 + h <= r1 || c1 + w <= c2 || c2 + w <= c1
    modifies a, tmp
    ensures BlocksSwapped(old(Cells(a)), Cells(a), a.Length1, r1, c1, r2, c2, h, w)
  {
    ghost var x, t0 := Cells(a), Cells(tmp);
    CopyBlock(a, r1, c1, tmp, 0, 0, h, w);
    CopyBlock(a, r2, c2, a, r1, c1, h, w);
    CopyBlock(tmp, 0, 0, a, r2, c2, h, w);
    SwapThroughScratch(x, Cells(tmp), Pasted(x, x, a.Length1, r2, c2, r1, c1, h, w), Cells(a), a.Length1,
                       r1, c1, r2, c2, h, w);
  }

  /**
   * Methods.RearrangeQuadrants: swaps quadrant q0 (top-left) with q3
   * (bottom-right) and q1 (top-right) with q2 (bottom-left) in place, each
   * swap going through one scratch block.
   */
  method RearrangeQuadrants<T(0)>(image: array2<T>)
    modifies image
    ensures Cells(image) == Rearranged(old(Cells(image)), image.Length1)
  {
    ghost var g0 := Cells(image);
    var cx := image.Length1 / 2;
    var cy := image.Length0 / 2;
    var tmp := new T[cy, cx];
    SwapBlocks(image, tmp, 0, 0, cy, cx, cy, cx);
    ghost var g1 := Cells(image);
    SwapBlocks(image, tmp, 0, cx, cy, 0, cy, cx);
    TwoSwapsRearrange(g0, g1, Cells(image), image.Length1);
  }
}
