/**
 * Day 8, "Treetop Tree House": a grid of tree heights. A tree is visible
 * from outside when every tree between it and an edge, in one of the four
 * directions, is strictly shorter; its scenic score multiplies the four
 * viewing distances (trees seen up to and including the first one at least
 * as tall, or up to the edge).
 *
 * The counting loops of the source are methods; what they count is stated
 * by functions over "sight lines": the trees seen from a cell in one
 * direction, nearest first.
 */
module Day8Trees {
  import opened GoStd

  type Grid = seq<seq<int>>

  /** Every row as long as the first. */
  predicate Rectangular(g: Grid)
  {
    forall i :: 0 <= i < |g| ==> |g[i]| == |g[0]|
  }

  function Width(g: Grid): nat
  {
    if |g| == 0 then 0 else |g[0]|
  }

  predicate Interior(g: Grid, r: int, c: int)
  {
    0 < r < |g| - 1 && 0 < c < Width(g) - 1
  }

  // ---------------------------------------------------------------------------
  // getVisibleTreesAtEdge

  /** The four edge slices of the source, where the bottom slice is
      `last[1:bottomEnd]` on a last row whose capacity is `capacity`; `None`
      where one of them would panic. Go lets a slice reach past the length of
      the slice it is taken from, up to its capacity. */
  function EdgeParts(rows: Grid, bottomEnd: int, capacity: int): Option<int>
  {
    if |rows| == 0 || exists i :: 0 <= i < |rows| && |rows[i]| == 0 then None
    else if bottomEnd < 1 || bottomEnd > capacity then None
    else Some(|rows| + (|rows[0]| - 1) + (|rows| - 1) + (bottomEnd - 1))
  }

  /** As written, the bottom edge is sliced up to the number of rows. The last
      row was built by `append`, so its capacity is at least its length and
      otherwise depends on the runtime's growth policy: it is a parameter. */
  function EdgeCountAsWritten(rows: Grid, capacity: int): (r: Option<int>)
    requires |rows| > 0 ==> capacity >= |rows[|rows| - 1]|
    ensures Rectangular(rows) && 2 <= |rows| && 2 <= Width(rows) && |rows| - 1 <= capacity ==>
              r == Some(3 * |rows| + Width(rows) - 4)
    ensures |rows| - 1 > capacity ==> r.None?
  {
    EdgeParts(rows, |rows| - 1, capacity)
  }

  /** The bottom edge sliced up to the row's own length. */
  function EdgeCount(rows: Grid): Option<int>
  {
    if |rows| == 0 then None
    else
      var last := rows[|rows| - 1];
      EdgeParts(rows, |last| - 1, |last|)
  }

  predicate OnEdge(rowCount: int, columnCount: int, r: int, c: int)
  {
    r == 0 || r == rowCount - 1 || c == 0 || c == columnCount - 1
  }

  /** The edge cells among the first `c` cells of row `r`. */
  function EdgeCellsInRow(rowCount: nat, columnCount: nat, r: nat, c: nat): nat
  {
    if c == 0 then 0
    else EdgeCellsInRow(rowCount, columnCount, r, c - 1) + if OnEdge(rowCount, columnCount, r, c - 1) then 1 else 0
  }

  /** The edge cells among the first `r` rows. */
  function EdgeCells(rowCount: nat, columnCount: nat, r: nat): nat
  {
    if r == 0 then 0
    else EdgeCells(rowCount, columnCount, r - 1) + EdgeCellsInRow(rowCount, columnCount, r - 1, columnCount)
  }

  lemma {:induction false} EdgeCellsInRowCount(rowCount: nat, columnCount: nat, r: nat, c: nat)
    requires 2 <= columnCount && c <= columnCount
    ensures r == 0 || r == rowCount - 1 ==> EdgeCellsInRow(rowCount, columnCount, r, c) == c
    ensures r != 0 && r != rowCount - 1 ==>
              EdgeCellsInRow(rowCount, columnCount, r, c) == (if c == 0 then 0 else if c < columnCount then 1 else 2)
  {
    if c > 0 {
      EdgeCellsInRowCount(rowCount, columnCount, r, c - 1);
    }
  }

  lemma {:induction false} EdgeCellsCount(rowCount: nat, columnCount: nat, r: nat)
    requires 2 <= rowCount && 2 <= columnCount && r <= rowCount
    ensures EdgeCells(rowCount, columnCount, r) ==
              if r == 0 then 0 else if r < rowCount then columnCount + 2 * (r - 1) else 2 * rowCount + 2 * columnCount - 4
  {
    if r > 0 {
      EdgeCellsCount(rowCount, columnCount, r - 1);
      EdgeCellsInRowCount(rowCount, columnCount, r - 1, columnCount);
    }
  }

  /** The corrected count is the number of cells on the edge of the grid. */
  lemma EdgeCountIsEdgeCells(rows: Grid)
    requires Rectangular(rows) && 2 <= |rows| && 2 <= Width(rows)
    ensures EdgeCount(rows) == Some(EdgeCells(|rows|, Width(rows), |rows|))
    ensures EdgeCount(rows) == Some(2 * |rows| + 2 * Width(rows) - 4)
  {
    var width := Width(rows);
    assert !exists i :: 0 <= i < |rows| && |rows[i]| == 0 by {
      forall i | 0 <= i < |rows| ensures |rows[i]| != 0 {
        assert |rows[i]| == width;
      }
    }
    assert |rows[|rows| - 1]| == width;
    assert EdgeParts(rows, width - 1, width) == Some(|rows| + (width - 1) + (|rows| - 1) + (width - 2));
    EdgeCellsCount(|rows|, width, |rows|);
  }

  /** On a square grid the two agree, whatever the capacity; on a 2×3 grid the
      code as written counts 5 of the 6 edge trees. */
  lemma EdgeCountAsWrittenExample(capacity: int)
    requires capacity >= 3
    ensures forall rows: Grid :: Rectangular(rows) && 2 <= |rows| == Width(rows) && capacity >= |rows| ==>
              EdgeCountAsWritten(rows, capacity) == EdgeCount(rows)
    ensures EdgeCountAsWritten([[1, 2, 3], [4, 5, 6]], capacity) == Some(5)
    ensures EdgeCells(2, 3, 2) == 6
  {
    forall rows: Grid | Rectangular(rows) && 2 <= |rows| == Width(rows) && capacity >= |rows|
      ensures EdgeCountAsWritten(rows, capacity) == EdgeCount(rows)
    {
      EdgeCountIsEdgeCells(rows);
    }
    var g: Grid := [[1, 2, 3], [4, 5, 6]];
    assert Rectangular(g) && Width(g) == 3;
    EdgeCellsCount(2, 3, 2);
  }

  /** `getVisibleTreesAtEdge`, with the bottom edge sliced to the row's length. */
  method VisibleTreesAtEdge(rows: Grid) returns (sum: Option<int>)
    ensures sum == EdgeCount(rows)
  {
    var leftEdgeTrees: seq<int> := [];
    for i := 0 to |rows|
      invariant |leftEdgeTrees| == i
      invariant forall k :: 0 <= k < i ==> |rows[k]| > 0
    {
      if |rows[i]| == 0 {
        return None;
      }
      leftEdgeTrees := leftEdgeTrees + [rows[i][0]];
    }
    if |rows| == 0 {
      return None;
    }
    var topEdgeTrees := rows[0][1..];
    var rightEdgeTrees: seq<int> := [];
    for idx := 0 to |rows|
      invariant |rightEdgeTrees| == if idx == 0 then 0 else idx - 1
    {
      if idx == 0 {
        continue;
      }
      rightEdgeTrees := rightEdgeTrees + [rows[idx][|rows[idx]| - 1]];
    }
    var last := rows[|rows| - 1];
    if |last| - 1 < 1 {
      return None;
    }
    var bottomEdgeTrees := last[1..|last| - 1];
    sum := Some(|leftEdgeTrees| + |topEdgeTrees| + |rightEdgeTrees| + |bottomEdgeTrees|);
  }

  // ---------------------------------------------------------------------------
  // Sight lines

  /** The trees left of (r, c), nearest first. */
  function LeftSight(g: Grid, r: nat, c: nat): (s: seq<int>)
    requires Rectangular(g) && r < |g| && c < Width(g)
    ensures |s| == c && forall k :: 0 <= k < c ==> s[k] == g[r][c - 1 - k]
  {
    seq(c, k requires 0 <= k < c => g[r][c - 1 - k])
  }

  /** The trees right of (r, c), nearest first. */
  function RightSight(g: Grid, r: nat, c: nat): (s: seq<int>)
    requires Rectangular(g) && r < |g| && c < Width(g)
    ensures |s| == Width(g) - 1 - c && forall k :: 0 <= k < |s| ==> s[k] == g[r][c + 1 + k]
  {
    g[r][c + 1..]
  }

  /** The trees above (r, c), nearest first. */
  function TopSight(g: Grid, r: nat, c: nat): (s: seq<int>)
    requires Rectangular(g) && r < |g| && c < Width(g)
    ensures |s| == r && forall k :: 0 <= k < r ==> s[k] == g[r - 1 - k][c]
  {
    seq(r, k requires 0 <= k < r => g[r - 1 - k][c])
  }

  /** The trees below (r, c), nearest first. */
  function BottomSight(g: Grid, r: nat, c: nat): (s: seq<int>)
    requires Rectangular(g) && r < |g| && c < Width(g)
    ensures |s| == |g| - 1 - r && forall k :: 0 <= k < |s| ==> s[k] == g[r + 1 + k][c]
  {
    seq(|g| - 1 - r, k requires 0 <= k < |g| - 1 - r => g[r + 1 + k][c])
  }

  /** Every tree along the sight line is strictly shorter than `height`. */
  predicate Clear(sight: seq<int>, height: int)
  {
    forall k :: 0 <= k < |sight| ==> sight[k] < height
  }

  predicate Visible(g: Grid, r: nat, c: nat)
    requires Rectangular(g) && r < |g| && c < Width(g)
  {
    var h := g[r][c];
    Clear(LeftSight(g, r, c), h) || Clear(RightSight(g, r, c), h)
    || Clear(TopSight(g, r, c), h) || Clear(BottomSight(g, r, c), h)
  }

  // ---------------------------------------------------------------------------
  // getVisibleInteriorTrees

  method VisibleFromLeft(g: Grid, r: nat, c: nat) returns (visible: bool)
    requires Rectangular(g) && r < |g| && c < Width(g)
    ensures visible == Clear(LeftSight(g, r, c), g[r][c])
  {
    var tree := g[r][c];
    visible := true;
    var i := c - 1;
    while i >= 0
      invariant -1 <= i < c
      invariant forall k :: i < k < c ==> g[r][k] < tree
    {
      if g[r][i] >= tree {
        visible := false;
        assert LeftSight(g, r, c)[c - 1 - i] == g[r][i];
        break;
      }
      i := i - 1;
    }
  }

  method VisibleFromRight(g: Grid, r: nat, c: nat) returns (visible: bool)
    requires Rectangular(g) && r < |g| && c < Width(g)
    ensures visible == Clear(RightSight(g, r, c), g[r][c])
  {
    var tree := g[r][c];
    visible := true;
    var i := c + 1;
    while i < |g[r]|
      invariant c + 1 <= i <= |g[r]|
      invariant forall k :: c < k < i ==> g[r][k] < tree
    {
      if g[r][i] >= tree {
        visible := false;
        assert RightSight(g, r, c)[i - c - 1] == g[r][i];
        break;
      }
      i := i + 1;
    }
  }

  method VisibleFromTop(g: Grid, r: nat, c: nat) returns (visible: bool)
    requires Rectangular(g) && r < |g| && c < Width(g)
    ensures visible == Clear(TopSight(g, r, c), g[r][c])
  {
    var tree := g[r][c];
    visible := true;
    var i := r - 1;
    while i >= 0
      invariant -1 <= i < r
      invariant forall k :: i < k < r ==> g[k][c] < tree
    {
      if g[i][c] >= tree {
        visible := false;
        assert TopSight(g, r, c)[r - 1 - i] == g[i][c];
        break;
      }
      i := i - 1;
    }
  }

  method VisibleFromBottom(g: Grid, r: nat, c: nat) returns (visible: bool)
    requires Rectangular(g) && r < |g| && c < Width(g)
    ensures visible == Clear(BottomSight(g, r, c), g[r][c])
  {
    var tree := g[r][c];
    visible := true;
    var i := r + 1;
    while i < |g|
      invariant r + 1 <= i <= |g|
      invariant forall k :: r < k < i ==> g[k][c] < tree
    {
      if g[i][c] >= tree {
        visible := false;
        assert BottomSight(g, r, c)[i - r - 1] == g[i][c];
        break;
      }
      i := i + 1;
    }
  }

  /** Visible interior trees among the first `c` cells of row `r`. */
  function RowVisible(g: Grid, r: nat, c: nat): nat
    requires Rectangular(g) && r < |g| && c <= Width(g)
  {
    if c == 0 then 0
    else RowVisible(g, r, c - 1) + if Interior(g, r, c - 1) && Visible(g, r, c - 1) then 1 else 0
  }

  /** Visible interior trees among the first `r` rows. */
  function GridVisible(g: Grid, r: nat): nat
    requires Rectangular(g) && r <= |g|
  {
    if r == 0 then 0 else GridVisible(g, r - 1) + RowVisible(g, r - 1, Width(g))
  }

  /** `getVisibleInteriorTrees`: every interior tree visible from some direction is counted once. */
  method VisibleInteriorTrees(g: Grid) returns (visibleInteriorTrees: nat)
    requires Rectangular(g)
    ensures visibleInteriorTrees == GridVisible(g, |g|)
  {
    visibleInteriorTrees := 0;
    for rowIndex := 0 to |g|
      invariant visibleInteriorTrees == GridVisible(g, rowIndex)
    {
      if rowIndex == 0 || rowIndex == |g| - 1 {
        assert RowVisible(g, rowIndex, Width(g)) == 0 by {
          NoVisibleOnEdgeRow(g, rowIndex, Width(g));
        }
        continue;
      }
      var row := g[rowIndex];
      for treeIndex := 0 to |row|
        invariant visibleInteriorTrees == GridVisible(g, rowIndex) + RowVisible(g, rowIndex, treeIndex)
      {
        if treeIndex == 0 || treeIndex == |row| - 1 {
          continue;
        }
        var isVisibleFromLeft := VisibleFromLeft(g, rowIndex, treeIndex);
        var isVisibleFromRight := VisibleFromRight(g, rowIndex, treeIndex);
        var isVisibleFromTop := VisibleFromTop(g, rowIndex, treeIndex);
        var isVisibleFromBottom := VisibleFromBottom(g, rowIndex, treeIndex);
        if isVisibleFromLeft || isVisibleFromRight || isVisibleFromTop || isVisibleFromBottom {
          visibleInteriorTrees := visibleInteriorTrees + 1;
        }
      }
    }
  }

  lemma {:induction false} NoVisibleOnEdgeRow(g: Grid, r: nat, c: nat)
    requires Rectangular(g) && r < |g| && c <= Width(g) && (r == 0 || r == |g| - 1)
    ensures RowVisible(g, r, c) == 0
  {
    if c > 0 {
      NoVisibleOnEdgeRow(g, r, c - 1);
    }
  }

  /** A row contributes at most its interior cells. */
  lemma {:induction false} RowVisibleBound(g: Grid, r: nat, c: nat)
    requires Rectangular(g) && r < |g| && c <= Width(g)
    ensures RowVisible(g, r, c) <= if c <= 1 then 0 else if c < Width(g) then c - 1 else Width(g) - 2
    ensures r == 0 || r == |g| - 1 ==> RowVisible(g, r, c) == 0
  {
    if c > 0 {
      RowVisibleBound(g, r, c - 1);
    }
  }

  /** At most (R−2)(C−2) interior trees are counted. */
  lemma {:induction false} GridVisibleBound(g: Grid, r: nat)
    requires Rectangular(g) && 2 <= |g| && 2 <= Width(g) && r <= |g|
    ensures GridVisible(g, r) <= (if r <= 1 then 0 else if r < |g| then r - 1 else |g| - 2) * (Width(g) - 2)
  {
    if r > 0 {
      GridVisibleBound(g, r - 1);
      RowVisibleBound(g, r - 1, Width(g));
      var w := Width(g) - 2;
      if 1 < r - 1 < |g| {
        assert (r - 1) * w == (r - 2) * w + w;
      }
    }
  }

  /** Each visible interior tree adds one to the count of its row. */
  lemma {:induction false} RowVisibleCounts(g: Grid, r: nat, c: nat, column: nat)
    requires Rectangular(g) && r < |g| && column < c <= Width(g)
    requires Interior(g, r, column) && Visible(g, r, column)
    ensures RowVisible(g, r, c) >= 1 + RowVisible(g, r, column)
  {
    if c - 1 > column {
      RowVisibleCounts(g, r, c - 1, column);
    }
  }

  // ---------------------------------------------------------------------------
  // getScenicScores

  /** Trees seen along a sight line: up to and including the first one at
      least `height` tall, or every tree up to the edge. */
  function ViewingDistance(sight: seq<int>, height: int): (d: nat)
    ensures d <= |sight|
    ensures |sight| > 0 ==> d >= 1
  {
    if sight == [] then 0
    else if sight[0] >= height then 1
    else 1 + ViewingDistance(sight[1..], height)
  }

  /** The trees before the last one counted are all shorter; the last one
      counted blocks the view unless it is the edge tree. */
  lemma {:induction false} ViewingDistanceMeaning(sight: seq<int>, height: int)
    ensures var d := ViewingDistance(sight, height);
            && (forall k :: 0 <= k < d - 1 ==> sight[k] < height)
            && (d < |sight| ==> sight[d - 1] >= height)
            && (0 < d == |sight| && sight[d - 1] < height ==> Clear(sight, height))
  {
    if sight != [] && sight[0] < height {
      ViewingDistanceMeaning(sight[1..], height);
    }
  }

  /** When the first tree at least `height` tall sits at `j`, the distance is `j + 1`;
      when there is none, it is the whole sight line. */
  lemma {:induction false} ViewingDistanceStops(sight: seq<int>, height: int, j: nat)
    requires j <= |sight| && forall k :: 0 <= k < j ==> sight[k] < height
    requires j < |sight| ==> sight[j] >= height
    ensures ViewingDistance(sight, height) == if j == |sight| then j else j + 1
  {
    if j > 0 {
      ViewingDistanceStops(sight[1..], height, j - 1);
    }
  }

  /** A tree visible from a direction sees every tree to that edge. */
  lemma VisibleSeesToEdge(sight: seq<int>, height: int)
    requires Clear(sight, height)
    ensures ViewingDistance(sight, height) == |sight|
  {
    ViewingDistanceStops(sight, height, |sight|);
  }

  method LeftScenicScore(g: Grid, r: nat, c: nat) returns (score: nat)
    requires Rectangular(g) && r < |g| && c < Width(g)
    ensures score == ViewingDistance(LeftSight(g, r, c), g[r][c])
  {
    var tree := g[r][c];
    ghost var sight := LeftSight(g, r, c);
    score := 0;
    var i := c - 1;
    while i >= 0
      invariant -1 <= i < c && score == c - 1 - i
      invariant forall k :: 0 <= k < score ==> sight[k] < tree
    {
      if g[r][i] >= tree {
        ViewingDistanceStops(sight, tree, score);
        score := score + 1;
        return;
      }
      score := score + 1;
      i := i - 1;
    }
    ViewingDistanceStops(sight, tree, score);
  }

  method RightScenicScore(g: Grid, r: nat, c: nat) returns (score: nat)
    requires Rectangular(g) && r < |g| && c < Width(g)
    ensures score == ViewingDistance(RightSight(g, r, c), g[r][c])
  {
    var tree := g[r][c];
    ghost var sight := RightSight(g, r, c);
    score := 0;
    var i := c + 1;
    while i < |g[r]|
      invariant c + 1 <= i <= |g[r]| && score == i - c - 1
      invariant forall k :: 0 <= k < score ==> sight[k] < tree
    {
      if g[r][i] >= tree {
        ViewingDistanceStops(sight, tree, score);
        score := score + 1;
        return;
      }
      score := score + 1;
      i := i + 1;
    }
    ViewingDistanceStops(sight, tree, score);
  }

  method TopScenicScore(g: Grid, r: nat, c: nat) returns (score: nat)
    requires Rectangular(g) && r < |g| && c < Width(g)
    ensures score == ViewingDistance(TopSight(g, r, c), g[r][c])
  {
    var tree := g[r][c];
    ghost var sight := TopSight(g, r, c);
    score := 0;
    var i := r - 1;
    while i >= 0
      invariant -1 <= i < r && score == r - 1 - i
      invariant forall k :: 0 <= k < score ==> sight[k] < tree
    {
      if g[i][c] >= tree {
        ViewingDistanceStops(sight, tree, score);
        score := score + 1;
        return;
      }
      score := score + 1;
      i := i - 1;
    }
    ViewingDistanceStops(sight, tree, score);
  }

  method BottomScenicScore(g: Grid, r: nat, c: nat) returns (score: nat)
    requires Rectangular(g) && r < |g| && c < Width(g)
    ensures score == ViewingDistance(BottomSight(g, r, c), g[r][c])
  {
    var tree := g[r][c];
    ghost var sight := BottomSight(g, r, c);
    score := 0;
    var i := r + 1;
    while i < |g|
      invariant r + 1 <= i <= |g| && score == i - r - 1
      invariant forall k :: 0 <= k < score ==> sight[k] < tree
    {
      if g[i][c] >= tree {
        ViewingDistanceStops(sight, tree, score);
        score := score + 1;
        return;
      }
      score := score + 1;
      i := i + 1;
    }
    ViewingDistanceStops(sight, tree, score);
  }

  /** The product of the four viewing distances. */
  function Score(g: Grid, r: nat, c: nat): int
    requires Rectangular(g) && r < |g| && c < Width(g)
  {
    var h := g[r][c];
    ViewingDistance(LeftSight(g, r, c), h) * ViewingDistance(RightSight(g, r, c), h)
    * ViewingDistance(TopSight(g, r, c), h) * ViewingDistance(BottomSight(g, r, c), h)
  }

  /** Every interior tree sees at least one tree each way and no further than the edge. */
  lemma ScoreBounds(g: Grid, r: nat, c: nat)
    requires Rectangular(g) && Interior(g, r, c)
    ensures var h := g[r][c];
            && 1 <= ViewingDistance(LeftSight(g, r, c), h) <= c
            && 1 <= ViewingDistance(RightSight(g, r, c), h) <= Width(g) - 1 - c
            && 1 <= ViewingDistance(TopSight(g, r, c), h) <= r
            && 1 <= ViewingDistance(BottomSight(g, r, c), h) <= |g| - 1 - r
    ensures Score(g, r, c) >= 1
  {
    var h := g[r][c];
    var a := ViewingDistance(LeftSight(g, r, c), h);
    var b := ViewingDistance(RightSight(g, r, c), h);
    var d := ViewingDistance(TopSight(g, r, c), h);
    var e := ViewingDistance(BottomSight(g, r, c), h);
    assert a * b >= 1 by {
      AtLeastOne(a, b);
    }
    assert a * b * d >= 1 by {
      AtLeastOne(a * b, d);
    }
    AtLeastOne(a * b * d, e);
  }

  lemma AtLeastOne(x: int, y: int)
    requires x >= 1 && y >= 1
    ensures x * y >= 1
  {
  }

  predicate AllInterior(g: Grid, cells: seq<(nat, nat)>)
  {
    forall k :: 0 <= k < |cells| ==> Interior(g, cells[k].0, cells[k].1)
  }

  /** The interior cells among the first `c` cells of row `r`. */
  function RowCells(g: Grid, r: nat, c: nat): (cells: seq<(nat, nat)>)
    requires c <= Width(g)
    ensures AllInterior(g, cells)
  {
    if c == 0 then []
    else RowCells(g, r, c - 1) + if Interior(g, r, c - 1) then [(r, c - 1)] else []
  }

  /** The interior cells among the first `r` rows, in row-major order. */
  function GridCells(g: Grid, r: nat): (cells: seq<(nat, nat)>)
    ensures AllInterior(g, cells)
  {
    if r == 0 then [] else GridCells(g, r - 1) + RowCells(g, r - 1, Width(g))
  }

  /** The scores of the given cells, in order. */
  function ScoresOf(g: Grid, cells: seq<(nat, nat)>): (scores: seq<int>)
    requires Rectangular(g) && AllInterior(g, cells)
    ensures |scores| == |cells|
  {
    if cells == [] then []
    else ScoresOf(g, cells[..|cells| - 1]) + [Score(g, cells[|cells| - 1].0, cells[|cells| - 1].1)]
  }

  lemma {:induction false} ScoresOfAt(g: Grid, cells: seq<(nat, nat)>, k: nat)
    requires Rectangular(g) && AllInterior(g, cells) && k < |cells|
    ensures ScoresOf(g, cells)[k] == Score(g, cells[k].0, cells[k].1)
  {
    var n := |cells| - 1;
    if k < n {
      ScoresOfAt(g, cells[..n], k);
    }
  }

  /** `getScenicScores`: one score per interior tree, row by row. */
  method ScenicScores(g: Grid) returns (scenicScores: seq<int>)
    requires Rectangular(g)
    ensures scenicScores == ScoresOf(g, GridCells(g, |g|))
  {
    scenicScores := [];
    for rowIndex := 0 to |g|
      invariant scenicScores == ScoresOf(g, GridCells(g, rowIndex))
    {
      if rowIndex == 0 || rowIndex == |g| - 1 {
        assert RowCells(g, rowIndex, Width(g)) == [] by {
          NoCellsOnEdgeRow(g, rowIndex, Width(g));
        }
        assert GridCells(g, rowIndex + 1) == GridCells(g, rowIndex);
        continue;
      }
      scenicScores := ScoreRow(g, rowIndex, scenicScores);
    }
  }

  /** The inner loop of `getScenicScores`: append the scores of one interior row. */
  method ScoreRow(g: Grid, rowIndex: nat, scenicScores: seq<int>) returns (extended: seq<int>)
    requires Rectangular(g) && 0 < rowIndex < |g| - 1
    requires scenicScores == ScoresOf(g, GridCells(g, rowIndex))
    ensures extended == ScoresOf(g, GridCells(g, rowIndex + 1))
  {
    extended := scenicScores;
    var row := g[rowIndex];
    assert |row| == Width(g);
    assert GridCells(g, rowIndex) + RowCells(g, rowIndex, 0) == GridCells(g, rowIndex);
    for treeIndex := 0 to |row|
      invariant AllInterior(g, GridCells(g, rowIndex) + RowCells(g, rowIndex, treeIndex))
      invariant extended == ScoresOf(g, GridCells(g, rowIndex) + RowCells(g, rowIndex, treeIndex))
    {
      ghost var cells := GridCells(g, rowIndex) + RowCells(g, rowIndex, treeIndex);
      if treeIndex == 0 || treeIndex == |row| - 1 {
        assert RowCells(g, rowIndex, treeIndex + 1) == RowCells(g, rowIndex, treeIndex);
        continue;
      }
      var scenicScore := TreeScore(g, rowIndex, treeIndex);
      extended := extended + [scenicScore];
      assert Interior(g, rowIndex, treeIndex);
      assert RowCells(g, rowIndex, treeIndex + 1) == RowCells(g, rowIndex, treeIndex) + [(rowIndex, treeIndex)];
      AppendAssociative(GridCells(g, rowIndex), RowCells(g, rowIndex, treeIndex), [(rowIndex, treeIndex)]);
      ScoresOfSnoc(g, cells, (rowIndex, treeIndex));
    }
  }

  lemma AppendAssociative(a: seq<(nat, nat)>, b: seq<(nat, nat)>, c: seq<(nat, nat)>)
    ensures a + (b + c) == (a + b) + c
  {
  }

  /** Scoring one more interior cell appends its score. */
  lemma ScoresOfSnoc(g: Grid, cells: seq<(nat, nat)>, cell: (nat, nat))
    requires Rectangular(g) && AllInterior(g, cells) && Interior(g, cell.0, cell.1)
    ensures AllInterior(g, cells + [cell])
    ensures ScoresOf(g, cells + [cell]) == ScoresOf(g, cells) + [Score(g, cell.0, cell.1)]
  {
    assert (cells + [cell])[..|cells|] == cells;
  }

  /** The four directional counts of one tree, multiplied. */
  method TreeScore(g: Grid, rowIndex: nat, treeIndex: nat) returns (scenicScore: int)
    requires Rectangular(g) && rowIndex < |g| && treeIndex < Width(g)
    ensures scenicScore == Score(g, rowIndex, treeIndex)
  {
    var leftScenicScore: int := LeftScenicScore(g, rowIndex, treeIndex);
    var rightScenicScore: int := RightScenicScore(g, rowIndex, treeIndex);
    var topScenicScore: int := TopScenicScore(g, rowIndex, treeIndex);
    var bottomScenicScore: int := BottomScenicScore(g, rowIndex, treeIndex);
    scenicScore := leftScenicScore * rightScenicScore * topScenicScore * bottomScenicScore;
  }

  lemma {:induction false} NoCellsOnEdgeRow(g: Grid, r: nat, c: nat)
    requires c <= Width(g) && (r == 0 || r == |g| - 1)
    ensures RowCells(g, r, c) == []
  {
    if c > 0 {
      NoCellsOnEdgeRow(g, r, c - 1);
    }
  }

  /** An interior row has one cell per interior column, in column order. */
  lemma {:induction false} RowCellsLayout(g: Grid, r: nat, c: nat)
    requires 0 < r < |g| - 1 && 2 <= Width(g) && c <= Width(g)
    ensures |RowCells(g, r, c)| == if c <= 1 then 0 else if c < Width(g) then c - 1 else Width(g) - 2
    ensures forall j :: 0 < j < c && j < Width(g) - 1 ==> RowCells(g, r, c)[j - 1] == (r, j)
  {
    if c > 0 {
      RowCellsLayout(g, r, c - 1);
      var before := RowCells(g, r, c - 1);
      var after := RowCells(g, r, c);
      assert before <= after;
    }
  }

  /** The first `r` rows hold (r−1)(C−2) interior cells, for r < R. */
  lemma {:induction false} GridCellsLength(g: Grid, r: nat)
    requires 2 <= |g| && 2 <= Width(g) && r <= |g|
    ensures |GridCells(g, r)| == (if r <= 1 then 0 else if r < |g| then r - 1 else |g| - 2) * (Width(g) - 2)
  {
    if r > 0 {
      GridCellsLength(g, r - 1);
      if r - 1 == 0 || r - 1 == |g| - 1 {
        NoCellsOnEdgeRow(g, r - 1, Width(g));
      } else {
        RowCellsLayout(g, r - 1, Width(g));
        var w := Width(g) - 2;
        assert (r - 1) * w == (r - 2) * w + w;
      }
    }
  }

  lemma {:induction false} GridCellsPrefix(g: Grid, r: nat, s: nat)
    requires r <= s
    ensures GridCells(g, r) <= GridCells(g, s)
    decreases s - r
  {
    if r < s {
      GridCellsPrefix(g, r, s - 1);
    }
  }

  /** The position of interior tree (r, c) when the interior is read row by row. */
  function RowMajor(g: Grid, r: nat, c: nat): nat
    requires Interior(g, r, c)
  {
    var above: nat := r - 1;
    var width: nat := Width(g) - 2;
    NonNegativeProduct(above, width);
    above * width + (c - 1)
  }

  lemma NonNegativeProduct(x: nat, y: nat)
    ensures x * y >= 0
  {
  }

  /** Row-major order: interior tree (r, c) is cell (r−1)(C−2) + (c−1). */
  lemma CellAt(g: Grid, r: nat, c: nat)
    requires Interior(g, r, c)
    ensures RowMajor(g, r, c) < |GridCells(g, |g|)|
    ensures GridCells(g, |g|)[RowMajor(g, r, c)] == (r, c)
  {
    var index := RowMajor(g, r, c);
    GridCellsLength(g, r);
    assert |GridCells(g, r)| == index - (c - 1);
    RowCellsLayout(g, r, Width(g));
    GridCellsPrefix(g, r + 1, |g|);
    assert GridCells(g, r + 1) == GridCells(g, r) + RowCells(g, r, Width(g));
    assert GridCells(g, r + 1)[index] == RowCells(g, r, Width(g))[c - 1];
  }

  /** The score list has one entry per interior tree, (R−2)(C−2) in all. */
  lemma ScoreCount(g: Grid)
    requires Rectangular(g) && 2 <= |g| && 2 <= Width(g)
    ensures |ScoresOf(g, GridCells(g, |g|))| == (|g| - 2) * (Width(g) - 2)
  {
    GridCellsLength(g, |g|);
  }

  lemma ScoreOfCell(g: Grid, cells: seq<(nat, nat)>, index: nat, r: nat, c: nat)
    requires Rectangular(g) && AllInterior(g, cells) && index < |cells| && cells[index] == (r, c)
    ensures ScoresOf(g, cells)[index] == Score(g, r, c)
  {
    ScoresOfAt(g, cells, index);
  }

  /** The score of interior tree (r, c) is at index (r−1)(C−2) + (c−1). */
  lemma ScoreAt(g: Grid, r: nat, c: nat)
    requires Rectangular(g) && Interior(g, r, c)
    ensures RowMajor(g, r, c) < |GridCells(g, |g|)|
    ensures ScoresOf(g, GridCells(g, |g|))[RowMajor(g, r, c)] == Score(g, r, c)
  {
    CellAt(g, r, c);
    ScoreOfCell(g, GridCells(g, |g|), RowMajor(g, r, c), r, c);
  }

  /** `sort.Ints` followed by the last element: the highest score, or a panic when there is none. */
  function HighestScore(scores: seq<int>): (r: Option<int>)
    ensures r.None? <==> scores == []
    ensures r.Some? ==> r.value in scores && forall k :: 0 <= k < |scores| ==> scores[k] <= r.value
  {
    if scores == [] then None
    else
      match HighestScore(scores[..|scores| - 1])
      case None => Some(scores[|scores| - 1])
      case Some(m) => Some(if scores[|scores| - 1] > m then scores[|scores| - 1] else m)
  }
}
