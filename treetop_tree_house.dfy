/** Day 8, "Treetop Tree House": a grid of tree heights. The scenic score of
    a tree multiplies how far one can see from it in the four directions; the
    answer is the highest score. */
module TreetopTreeHouse {
  import opened Wrappers
  import opened SeqOps

  /** A grid of heights with 1-based access. */
  datatype Matrix = Matrix(numRows: nat, numCols: nat, data: seq<seq<nat>>)

  /** The shape `Matrix::from` establishes: `numRows` rows of `numCols` heights. */
  predicate Valid(m: Matrix) {
    |m.data| == m.numRows && forall i | 0 <= i < |m.data| :: |m.data[i]| == m.numCols
  }

  /** `iter().min()` of a non-empty sequence. */
  function MinOf(s: seq<nat>): (r: nat)
    requires s != []
    ensures r in s && forall x | x in s :: r <= x
  {
    if |s| == 1 then s[0]
    else
      assert forall x | x in s :: x == s[0] || x in s[1..];
      var rest := MinOf(s[1..]);
      if s[0] <= rest then s[0] else rest
  }

  /** `iter().max()` of a non-empty sequence. */
  function MaxOf(s: seq<nat>): (r: nat)
    requires s != []
    ensures r in s && forall x | x in s :: x <= r
  {
    if |s| == 1 then s[0]
    else
      assert forall x | x in s :: x == s[0] || x in s[1..];
      var rest := MaxOf(s[1..]);
      if s[0] >= rest then s[0] else rest
  }

  /** The length of every row, in order. */
  function RowLengths(rows: seq<seq<nat>>): (lengths: seq<nat>)
    ensures |lengths| == |rows| && forall i | 0 <= i < |rows| :: lengths[i] == |rows[i]|
  {
    seq(|rows|, i requires 0 <= i < |rows| => |rows[i]|)
  }

  /** `Matrix::from`: the rows must all have the length of the shortest and of
      the longest row; an empty list of rows has no shortest row and stops
      the program. */
  function From(rows: seq<seq<nat>>): (r: Option<Matrix>)
    ensures r.Some? <==> rows != [] && forall i | 0 <= i < |rows| :: |rows[i]| == |rows[0]|
    ensures r.Some? ==> r.value == Matrix(|rows|, |rows[0]|, rows) && Valid(r.value)
  {
    var colLengths := RowLengths(rows);
    if colLengths == [] then None
    else if MinOf(colLengths) != MaxOf(colLengths) then
      assert colLengths[0] in colLengths;
      None
    else
      assert forall i | 0 <= i < |rows| :: colLengths[i] in colLengths;
      Some(Matrix(|rows|, colLengths[0], rows))
  }

  /** `get_row`: row `idx`, counted from 1. */
  function GetRow(m: Matrix, idx: nat): (row: seq<nat>)
    requires Valid(m) && 1 <= idx <= m.numRows
    ensures |row| == m.numCols
    ensures forall j | 0 <= j < m.numCols :: row[j] == m.data[idx - 1][j]
  {
    m.data[idx - 1]
  }

  /** `get_column`: entry `idx` of every row, counted from 1. */
  function GetColumn(m: Matrix, idx: nat): (column: seq<nat>)
    requires Valid(m) && 1 <= idx <= m.numCols
    ensures |column| == m.numRows
    ensures forall k | 0 <= k < m.numRows :: column[k] == m.data[k][idx - 1]
  {
    seq(|m.data|, k requires 0 <= k < |m.data| => m.data[k][idx - 1])
  }

  /** `m[[i, j]]`: the height in row `i`, column `j`, both counted from 1. */
  function At(m: Matrix, i: nat, j: nat): (h: nat)
    requires Valid(m) && 1 <= i <= m.numRows && 1 <= j <= m.numCols
    ensures h == GetRow(m, i)[j - 1] == GetColumn(m, j)[i - 1]
  {
    m.data[i - 1][j - 1]
  }

  /** How many trees of `part`, nearest first, can be seen from a tree of
      height `target`: up to and including the first at least as tall, or all
      of them. */
  function ViewingDistance(part: seq<nat>, target: nat): (d: nat)
    ensures d <= |part|
    ensures part != [] ==> d >= 1
  {
    if part == [] then 0
    else if part[0] >= target then 1
    else 1 + ViewingDistance(part[1..], target)
  }

  /** Trees shorter than the target are seen past: the distance counts them and
      goes on. */
  lemma {:induction false} ViewingDistanceSkip(part: seq<nat>, target: nat, i: nat)
    requires i <= |part| && forall k | 0 <= k < i :: part[k] < target
    ensures ViewingDistance(part, target) == i + ViewingDistance(part[i..], target)
  {
    if i > 0 {
      ViewingDistanceSkip(part[1..], target, i - 1);
      assert part[1..][i - 1..] == part[i..];
    }
  }

  /** The distance reaches exactly the first tree at least as tall as the
      target, or the end when there is none. */
  lemma ViewingDistanceFirstBlock(part: seq<nat>, target: nat, i: nat)
    requires i < |part| && part[i] >= target && forall k | 0 <= k < i :: part[k] < target
    ensures ViewingDistance(part, target) == i + 1
  {
    ViewingDistanceSkip(part, target, i);
  }

  lemma ViewingDistanceClear(part: seq<nat>, target: nat)
    requires forall k | 0 <= k < |part| :: part[k] < target
    ensures ViewingDistance(part, target) == |part|
  {
    ViewingDistanceSkip(part, target, |part|);
  }

  /** A taller tree sees at least as far. */
  lemma {:induction false} ViewingDistanceMonotone(part: seq<nat>, lower: nat, higher: nat)
    requires lower <= higher
    ensures ViewingDistance(part, lower) <= ViewingDistance(part, higher)
  {
    if part != [] && part[0] < lower {
      ViewingDistanceMonotone(part[1..], lower, higher);
    }
  }

  /** The trees between the tree in row `i`, column `j` and the grid's
      edge, nearest first. */
  function LeftOf(m: Matrix, i: nat, j: nat): seq<nat>
    requires Valid(m) && 1 <= i <= m.numRows && 1 <= j <= m.numCols
  {
    Reverse(GetRow(m, i)[..j - 1])
  }

  function RightOf(m: Matrix, i: nat, j: nat): seq<nat>
    requires Valid(m) && 1 <= i <= m.numRows && 1 <= j <= m.numCols
  {
    GetRow(m, i)[j..]
  }

  function Above(m: Matrix, i: nat, j: nat): seq<nat>
    requires Valid(m) && 1 <= i <= m.numRows && 1 <= j <= m.numCols
  {
    Reverse(GetColumn(m, j)[..i - 1])
  }

  function Below(m: Matrix, i: nat, j: nat): seq<nat>
    requires Valid(m) && 1 <= i <= m.numRows && 1 <= j <= m.numCols
  {
    GetColumn(m, j)[i..]
  }

  /** The four directions hold, nearest first, exactly the other trees of the
      tree's row and column: never the tree itself. */
  lemma Directions(m: Matrix, i: nat, j: nat)
    requires Valid(m) && 1 <= i <= m.numRows && 1 <= j <= m.numCols
    ensures |LeftOf(m, i, j)| + |RightOf(m, i, j)| == m.numCols - 1
    ensures |Above(m, i, j)| + |Below(m, i, j)| == m.numRows - 1
    ensures forall k | 0 <= k < |LeftOf(m, i, j)| :: LeftOf(m, i, j)[k] == At(m, i, j - 1 - k)
    ensures forall k | 0 <= k < |RightOf(m, i, j)| :: RightOf(m, i, j)[k] == At(m, i, j + 1 + k)
    ensures forall k | 0 <= k < |Above(m, i, j)| :: Above(m, i, j)[k] == At(m, i - 1 - k, j)
    ensures forall k | 0 <= k < |Below(m, i, j)| :: Below(m, i, j)[k] == At(m, i + 1 + k, j)
  {
  }

  /** The scenic score: 0 on the edge of the grid, otherwise the product of the
      four viewing distances. */
  function ScenicScore(m: Matrix, i: nat, j: nat): nat
    requires Valid(m) && 1 <= i <= m.numRows && 1 <= j <= m.numCols
  {
    if i == 1 || i == m.numRows || j == 1 || j == m.numCols then 0
    else PartialScore(Parts(m, i, j), 4, At(m, i, j))
  }

  /** The four directions in the order the score visits them. */
  function Parts(m: Matrix, i: nat, j: nat): (parts: seq<seq<nat>>)
    requires Valid(m) && 1 <= i <= m.numRows && 1 <= j <= m.numCols
    ensures |parts| == 4
  {
    [LeftOf(m, i, j), RightOf(m, i, j), Above(m, i, j), Below(m, i, j)]
  }

  /** An edge tree scores 0; an interior tree sees at least one tree in every
      direction and at most the trees up to the edge, so it scores at least 1
      and at most the product of those counts. */
  lemma ScenicScoreBounds(m: Matrix, i: nat, j: nat)
    requires Valid(m) && 1 <= i <= m.numRows && 1 <= j <= m.numCols
    ensures i == 1 || i == m.numRows || j == 1 || j == m.numCols ==> ScenicScore(m, i, j) == 0
    ensures 1 < i < m.numRows && 1 < j < m.numCols ==>
      1 <= ScenicScore(m, i, j) <= (j - 1) * (m.numCols - j) * (i - 1) * (m.numRows - i)
  {
    if 1 < i < m.numRows && 1 < j < m.numCols {
      var h := At(m, i, j);
      var l, r, u, d := ViewingDistance(LeftOf(m, i, j), h), ViewingDistance(RightOf(m, i, j), h),
        ViewingDistance(Above(m, i, j), h), ViewingDistance(Below(m, i, j), h);
      InteriorScore(m, i, j);
      assert 1 <= l <= j - 1 && 1 <= r <= m.numCols - j;
      assert 1 <= u <= i - 1 && 1 <= d <= m.numRows - i;
      ProductBounds(l, r, u, d, j - 1, m.numCols - j, i - 1, m.numRows - i);
    }
  }

  /** An interior tree's score is the product of its four viewing distances. */
  lemma InteriorScore(m: Matrix, i: nat, j: nat)
    requires Valid(m) && 1 < i < m.numRows && 1 < j < m.numCols
    ensures var h := At(m, i, j);
      ScenicScore(m, i, j) == ViewingDistance(LeftOf(m, i, j), h) * ViewingDistance(RightOf(m, i, j), h)
        * ViewingDistance(Above(m, i, j), h) * ViewingDistance(Below(m, i, j), h)
  {
    var h := At(m, i, j);
    var parts := Parts(m, i, j);
    assert parts[0] == LeftOf(m, i, j) && parts[1] == RightOf(m, i, j);
    assert parts[2] == Above(m, i, j) && parts[3] == Below(m, i, j);
    var l, r, u := ViewingDistance(parts[0], h), ViewingDistance(parts[1], h), ViewingDistance(parts[2], h);
    assert PartialScore(parts, 1, h) == l;
    assert PartialScore(parts, 2, h) == l * r;
    assert PartialScore(parts, 3, h) == l * r * u;
  }

  /** The grid with the height in row `i`, column `j` replaced by `h`. */
  function SetHeight(m: Matrix, i: nat, j: nat, h: nat): (r: Matrix)
    requires Valid(m) && 1 <= i <= m.numRows && 1 <= j <= m.numCols
    ensures Valid(r) && r.numRows == m.numRows && r.numCols == m.numCols
    ensures At(r, i, j) == h
    ensures forall a, b | 1 <= a <= m.numRows && 1 <= b <= m.numCols && (a != i || b != j) ::
      At(r, a, b) == At(m, a, b)
  {
    var row: seq<nat> := m.data[i - 1][j - 1 := h];
    Matrix(m.numRows, m.numCols, m.data[i - 1 := row])
  }

  /** Changing a tree's height leaves the four directions seen from it as
      they were: none of them holds the tree itself. */
  lemma PartsUnchanged(m: Matrix, i: nat, j: nat, h: nat)
    requires Valid(m) && 1 <= i <= m.numRows && 1 <= j <= m.numCols
    ensures Parts(SetHeight(m, i, j, h), i, j) == Parts(m, i, j)
  {
    var r := SetHeight(m, i, j, h);
    assert GetRow(r, i)[..j - 1] == GetRow(m, i)[..j - 1];
    assert GetRow(r, i)[j..] == GetRow(m, i)[j..];
    assert GetColumn(r, j)[..i - 1] == GetColumn(m, j)[..i - 1];
    assert GetColumn(r, j)[i..] == GetColumn(m, j)[i..];
  }

  /** A taller tree's product of distances over the same parts is no smaller. */
  lemma {:induction false} PartialScoreMonotone(parts: seq<seq<nat>>, p: nat, lower: nat, higher: nat)
    requires p <= |parts| && lower <= higher
    ensures PartialScore(parts, p, lower) <= PartialScore(parts, p, higher)
  {
    if p > 0 {
      PartialScoreMonotone(parts, p - 1, lower, higher);
      var a, b := PartialScore(parts, p - 1, lower), PartialScore(parts, p - 1, higher);
      var c, d := ViewingDistance(parts[p - 1], lower), ViewingDistance(parts[p - 1], higher);
      ViewingDistanceMonotone(parts[p - 1], lower, higher);
      MulLe(a, b, c);
      MulLe(c, d, b);
    }
  }

  /** Raising one tree, and nothing else, never lowers its scenic score. */
  lemma ScenicScoreMonotone(m: Matrix, i: nat, j: nat, h: nat)
    requires Valid(m) && 1 <= i <= m.numRows && 1 <= j <= m.numCols && At(m, i, j) <= h
    ensures ScenicScore(m, i, j) <= ScenicScore(SetHeight(m, i, j, h), i, j)
  {
    PartsUnchanged(m, i, j, h);
    PartialScoreMonotone(Parts(m, i, j), 4, At(m, i, j), h);
  }

  lemma ProductBounds(a: nat, b: nat, c: nat, d: nat, ma: nat, mb: nat, mc: nat, md: nat)
    requires 1 <= a <= ma && 1 <= b <= mb && 1 <= c <= mc && 1 <= d <= md
    ensures 1 <= a * b * c * d <= ma * mb * mc * md
  {
    assert 1 <= a * b <= ma * mb by {
      MulMono(a, b, ma, mb);
    }
    assert 1 <= a * b * c <= ma * mb * mc by {
      MulMono(a * b, c, ma * mb, mc);
    }
    MulMono(a * b * c, d, ma * mb * mc, md);
  }

  lemma MulMono(a: nat, b: nat, ma: nat, mb: nat)
    requires 1 <= a <= ma && 1 <= b <= mb
    ensures 1 <= a * b <= ma * mb
  {
    assert a * b <= ma * b;
    assert ma * b <= ma * mb;
  }

  /** `determine_scenic_score`: edge trees score 0 at once; otherwise each of
      the four directions is walked outward, counting trees until one at
      least as tall, and the counts are multiplied. */
  method DetermineScenicScore(m: Matrix, treeRow: nat, treeCol: nat) returns (scenicScore: nat)
    requires Valid(m) && 1 <= treeRow <= m.numRows && 1 <= treeCol <= m.numCols
    ensures scenicScore == ScenicScore(m, treeRow, treeCol)
  {
    if treeRow == 1 || treeRow == m.numRows {
      return 0;
    }
    if treeCol == 1 || treeCol == m.numCols {
      return 0;
    }
    var targetTreeRow := GetRow(m, treeRow);
    var treeRowLeft := Reverse(targetTreeRow[..treeCol - 1]);
    var treeRowRight := targetTreeRow[treeCol..];
    var targetTreeCol := GetColumn(m, treeCol);
    var treeColUp := Reverse(targetTreeCol[..treeRow - 1]);
    var treeColDown := targetTreeCol[treeRow..];
    var targetTree := At(m, treeRow, treeCol);

    var gridParts := [treeRowLeft, treeRowRight, treeColUp, treeColDown];
    scenicScore := 1;
    for p := 0 to 4
      invariant scenicScore == PartialScore(gridParts, p, targetTree)
    {
      var numTrees := CountVisibleTrees(gridParts[p], targetTree);
      scenicScore := scenicScore * numTrees;
    }
    assert gridParts == Parts(m, treeRow, treeCol);
  }

  /** The inner loop of `determine_scenic_score`: walk outward from the tree,
      counting each tree passed, and stop after the first one at least as
      tall. */
  method CountVisibleTrees(gridPart: seq<nat>, targetTree: nat) returns (numTrees: nat)
    ensures numTrees == ViewingDistance(gridPart, targetTree)
  {
    numTrees := 0;
    for k := 0 to |gridPart|
      invariant numTrees == k
      invariant forall t | 0 <= t < k :: gridPart[t] < targetTree
    {
      numTrees := numTrees + 1;
      if gridPart[k] >= targetTree {
        ViewingDistanceFirstBlock(gridPart, targetTree, k);
        return;
      }
    }
    ViewingDistanceClear(gridPart, targetTree);
  }

  /** The product of the viewing distances of the first `p` parts. */
  function PartialScore(parts: seq<seq<nat>>, p: nat, target: nat): nat
    requires p <= |parts|
  {
    if p == 0 then 1 else PartialScore(parts, p - 1, target) * ViewingDistance(parts[p - 1], target)
  }

  /** The scores of row `i`, column by column. */
  function RowScores(m: Matrix, i: nat): (scores: seq<nat>)
    requires Valid(m) && 1 <= i <= m.numRows
    ensures |scores| == m.numCols
    ensures forall j | 1 <= j <= m.numCols :: scores[j - 1] == ScenicScore(m, i, j)
  {
    seq(m.numCols, j requires 0 <= j < m.numCols => ScenicScore(m, i, j + 1))
  }

  /** The scores of the first `n` rows, row after row. */
  function AllScores(m: Matrix, n: nat): (scores: seq<nat>)
    requires Valid(m) && n <= m.numRows
    ensures |scores| == n * m.numCols
  {
    if n == 0 then [] else AllScores(m, n - 1) + RowScores(m, n)
  }

  /** `get_tree_scenic_scores`: every tree's score, row by row and, within a
      row, column by column. */
  method GetTreeScenicScores(m: Matrix) returns (scenicScores: seq<nat>)
    requires Valid(m)
    ensures scenicScores == AllScores(m, m.numRows)
  {
    scenicScores := [];
    for i := 1 to m.numRows + 1
      invariant scenicScores == AllScores(m, i - 1)
    {
      for j := 1 to m.numCols + 1
        invariant scenicScores == AllScores(m, i - 1) + RowScores(m, i)[..j - 1]
      {
        var score := DetermineScenicScore(m, i, j);
        assert RowScores(m, i)[..j] == RowScores(m, i)[..j - 1] + [score];
        scenicScores := scenicScores + [score];
      }
      assert RowScores(m, i)[..m.numCols] == RowScores(m, i);
    }
  }

  /** Entry (i - 1) * numCols + (j - 1) of the scores is the score of the tree
      in row i, column j. */
  lemma {:induction false} ScoreAt(m: Matrix, n: nat, i: nat, j: nat)
    requires Valid(m) && n <= m.numRows && 1 <= i <= n && 1 <= j <= m.numCols
    ensures (i - 1) * m.numCols + (j - 1) < |AllScores(m, n)|
    ensures AllScores(m, n)[(i - 1) * m.numCols + (j - 1)] == ScenicScore(m, i, j)
  {
    RowOffset(i, n, j, m.numCols);
    if i < n {
      ScoreAt(m, n - 1, i, j);
    }
  }

  lemma RowOffset(i: nat, n: nat, j: nat, cols: nat)
    requires 1 <= i <= n && 1 <= j <= cols
    ensures (i - 1) * cols + (j - 1) < n * cols
    ensures i == n ==> (i - 1) * cols + (j - 1) == (n - 1) * cols + (j - 1)
    ensures i < n ==> (i - 1) * cols + (j - 1) < (n - 1) * cols
  {
    assert i * cols == (i - 1) * cols + cols;
    if i < n {
      MulLe(i, n - 1, cols);
    }
    MulLe(i, n, cols);
  }

  lemma MulLe(a: nat, b: nat, c: nat)
    requires a <= b
    ensures a * c <= b * c
  {
    assert b * c == a * c + (b - a) * c;
  }

  /** The answer `main` prints: the greatest score, when there is any. */
  function BestScore(scores: seq<nat>): (r: Option<nat>)
    ensures r.None? <==> scores == []
    ensures r.Some? ==> r.value in scores && forall s | s in scores :: s <= r.value
  {
    if scores == [] then None else Some(MaxOf(scores))
  }

  /** The best score is the score of some tree, and no tree scores more. */
  lemma BestScoreOfGrid(m: Matrix)
    requires Valid(m) && m.numRows >= 1 && m.numCols >= 1
    ensures BestScore(AllScores(m, m.numRows)).Some?
    ensures var best := BestScore(AllScores(m, m.numRows)).value;
      && (exists i, j | 1 <= i <= m.numRows && 1 <= j <= m.numCols :: ScenicScore(m, i, j) == best)
      && forall i, j | 1 <= i <= m.numRows && 1 <= j <= m.numCols :: ScenicScore(m, i, j) <= best
  {
    var scores := AllScores(m, m.numRows);
    ScoreAt(m, m.numRows, 1, 1);
    var best := BestScore(scores).value;
    forall i, j | 1 <= i <= m.numRows && 1 <= j <= m.numCols
      ensures ScenicScore(m, i, j) <= best
    {
      ScoreIn(m, i, j);
    }
    var k :| 0 <= k < |scores| && scores[k] == best;
    var i, j := RowColumnOf(k, m.numRows, m.numCols);
    ScoreAt(m, m.numRows, i, j);
  }

  lemma ScoreIn(m: Matrix, i: nat, j: nat)
    requires Valid(m) && 1 <= i <= m.numRows && 1 <= j <= m.numCols
    ensures ScenicScore(m, i, j) in AllScores(m, m.numRows)
  {
    ScoreInRows(m, m.numRows, i, j);
  }

  lemma {:induction false} ScoreInRows(m: Matrix, n: nat, i: nat, j: nat)
    requires Valid(m) && n <= m.numRows && 1 <= i <= n && 1 <= j <= m.numCols
    ensures ScenicScore(m, i, j) in AllScores(m, n)
  {
    var row := RowScores(m, n);
    if i == n {
      assert row[j - 1] == ScenicScore(m, i, j);
      assert AllScores(m, n) == AllScores(m, n - 1) + row;
    } else {
      ScoreInRows(m, n - 1, i, j);
    }
  }

  /** The row and column, counted from 1, of position `k` in row-major order. */
  lemma RowColumnOf(k: nat, rows: nat, cols: nat) returns (i: nat, j: nat)
    requires k < rows * cols
    ensures 1 <= i <= rows && 1 <= j <= cols && k == (i - 1) * cols + (j - 1)
  {
    assert cols > 0;
    i, j := k / cols + 1, k % cols + 1;
    assert k == (k / cols) * cols + k % cols;
  }
  /** The five-by-five grid of the puzzle's worked example. */
  function ExampleGrid(): seq<seq<nat>> {
    [[3, 0, 3, 7, 3], [2, 5, 5, 1, 2], [6, 5, 3, 3, 2], [3, 3, 5, 4, 9], [3, 5, 3, 9, 0]]
  }

  /** In the worked example, the height-5 tree in row 4, column 3 sees 2 trees
      left, 2 right, 2 up and 1 down, and so scores 8. */
  lemma ExampleScore()
    ensures From(ExampleGrid()).Some?
    ensures ScenicScore(From(ExampleGrid()).value, 4, 3) == 8
  {
    var g := ExampleGrid();
    assert |g| == 5 && |g[0]| == 5;
    assert forall i | 0 <= i < |g| :: |g[i]| == |g[0]|;
    var m := From(g).value;
    assert m == Matrix(5, 5, g);
    ExampleDirections(m);
    ExampleProduct([[3, 3], [4, 9], [3, 5, 3], [3]]);
  }

  lemma ExampleDirections(m: Matrix)
    requires m == Matrix(5, 5, ExampleGrid()) && Valid(m)
    ensures At(m, 4, 3) == 5
    ensures Parts(m, 4, 3) == [[3, 3], [4, 9], [3, 5, 3], [3]]
  {
    var row, column := GetRow(m, 4), GetColumn(m, 3);
    assert row == [3, 3, 5, 4, 9];
    assert column == [3, 5, 3, 5, 3];
    assert row[..2] == [row[0], row[1]];
    assert column[..3] == [column[0], column[1], column[2]];
    assert LeftOf(m, 4, 3) == Reverse([3, 3]) == [3, 3];
    assert RightOf(m, 4, 3) == [4, 9];
    assert Above(m, 4, 3) == Reverse([3, 5, 3]) == [3, 5, 3];
    assert Below(m, 4, 3) == [3];
  }

  lemma ExampleProduct(parts: seq<seq<nat>>)
    requires parts == [[3, 3], [4, 9], [3, 5, 3], [3]]
    ensures PartialScore(parts, 4, 5) == 8
  {
    assert ViewingDistance(parts[0], 5) == 2;
    assert ViewingDistance(parts[1], 5) == 2;
    assert ViewingDistance(parts[2], 5) == 2;
    assert ViewingDistance(parts[3], 5) == 1;
    assert PartialScore(parts, 1, 5) == 2 by {
      assert PartialScore(parts, 1, 5) == PartialScore(parts, 0, 5) * ViewingDistance(parts[0], 5);
    }
    assert PartialScore(parts, 2, 5) == 4 by {
      assert PartialScore(parts, 2, 5) == PartialScore(parts, 1, 5) * ViewingDistance(parts[1], 5);
    }
    assert PartialScore(parts, 3, 5) == 8 by {
      assert PartialScore(parts, 3, 5) == PartialScore(parts, 2, 5) * ViewingDistance(parts[2], 5);
    }
    assert PartialScore(parts, 4, 5) == PartialScore(parts, 3, 5) * ViewingDistance(parts[3], 5);
  }

  /** The score of the tree at position `j` of `row` and `i` of `col`, from
      the row and the column through it. */
  function LineScore(row: seq<nat>, col: seq<nat>, i: nat, j: nat): nat
    requires 1 <= j <= |row| && 1 <= i <= |col|
  {
    PartialScore([Reverse(row[..j - 1]), row[j..], Reverse(col[..i - 1]), col[i..]], 4, row[j - 1])
  }

  /** An interior tree's score depends only on its row and its column. */
  lemma ScoreFromLines(m: Matrix, i: nat, j: nat)
    requires Valid(m) && 1 < i < m.numRows && 1 < j < m.numCols
    ensures ScenicScore(m, i, j) == LineScore(GetRow(m, i), GetColumn(m, j), i, j)
  {
  }

  /** The scores of the example's interior trees, from their rows and
      columns, row by row. */
  lemma ExampleRowTwoScores()
    ensures LineScore([2, 5, 5, 1, 2], [0, 5, 5, 3, 5], 2, 2) == 1
    ensures LineScore([2, 5, 5, 1, 2], [3, 5, 3, 5, 3], 2, 3) == 4
    ensures LineScore([2, 5, 5, 1, 2], [7, 1, 3, 4, 9], 2, 4) == 1
  {
    var row, c2, c3, c4 := [2, 5, 5, 1, 2], [0, 5, 5, 3, 5], [3, 5, 3, 5, 3], [7, 1, 3, 4, 9];
    assert row[..1] == [row[0]] && row[..2] == [row[0], row[1]] && row[..3] == [row[0], row[1], row[2]];
    assert c2[..1] == [c2[0]];
    assert c3[..1] == [c3[0]];
    assert c4[..1] == [c4[0]];
  }

  lemma ExampleRowThreeScores()
    ensures LineScore([6, 5, 3, 3, 2], [0, 5, 5, 3, 5], 3, 2) == 6
    ensures LineScore([6, 5, 3, 3, 2], [3, 5, 3, 5, 3], 3, 3) == 1
    ensures LineScore([6, 5, 3, 3, 2], [7, 1, 3, 4, 9], 3, 4) == 2
  {
    var row, c2, c3, c4 := [6, 5, 3, 3, 2], [0, 5, 5, 3, 5], [3, 5, 3, 5, 3], [7, 1, 3, 4, 9];
    assert row[..1] == [row[0]] && row[..2] == [row[0], row[1]] && row[..3] == [row[0], row[1], row[2]];
    assert c2[..2] == [c2[0], c2[1]];
    assert c3[..2] == [c3[0], c3[1]];
    assert c4[..2] == [c4[0], c4[1]];
  }

  lemma ExampleRowFourScores()
    ensures LineScore([3, 3, 5, 4, 9], [0, 5, 5, 3, 5], 4, 2) == 1
    ensures LineScore([3, 3, 5, 4, 9], [3, 5, 3, 5, 3], 4, 3) == 8
    ensures LineScore([3, 3, 5, 4, 9], [7, 1, 3, 4, 9], 4, 4) == 3
  {
    var row, c2, c3, c4 := [3, 3, 5, 4, 9], [0, 5, 5, 3, 5], [3, 5, 3, 5, 3], [7, 1, 3, 4, 9];
    assert row[..1] == [row[0]] && row[..2] == [row[0], row[1]] && row[..3] == [row[0], row[1], row[2]];
    assert c2[..3] == [c2[0], c2[1], c2[2]];
    assert c3[..3] == [c3[0], c3[1], c3[2]];
    assert c4[..3] == [c4[0], c4[1], c4[2]];
  }

  /** The inner columns of the worked example. */
  lemma ExampleColumns(m: Matrix)
    requires m == Matrix(5, 5, ExampleGrid()) && Valid(m)
    ensures GetColumn(m, 2) == [0, 5, 5, 3, 5] && GetColumn(m, 3) == [3, 5, 3, 5, 3]
    ensures GetColumn(m, 4) == [7, 1, 3, 4, 9]
  {
  }

  /** No tree of the worked example scores more than 8. */
  lemma ExampleAtMostEight(m: Matrix, i: nat, j: nat)
    requires m == Matrix(5, 5, ExampleGrid()) && Valid(m) && 1 <= i <= 5 && 1 <= j <= 5
    ensures ScenicScore(m, i, j) <= 8
  {
    if 1 < i < 5 && 1 < j < 5 {
      ExampleColumns(m);
      ScoreFromLines(m, i, j);
      if i == 2 {
        assert GetRow(m, i) == [2, 5, 5, 1, 2];
        ExampleRowTwoScores();
      } else if i == 3 {
        assert GetRow(m, i) == [6, 5, 3, 3, 2];
        ExampleRowThreeScores();
      } else {
        assert GetRow(m, i) == [3, 3, 5, 4, 9];
        ExampleRowFourScores();
      }
    }
  }

  /** A grid whose scores are all at most `v`, one of them equal to `v`, has
      answer `v`. */
  lemma BestScoreIs(m: Matrix, v: nat, i0: nat, j0: nat)
    requires Valid(m) && 1 <= i0 <= m.numRows && 1 <= j0 <= m.numCols && ScenicScore(m, i0, j0) == v
    requires forall i, j | 1 <= i <= m.numRows && 1 <= j <= m.numCols :: ScenicScore(m, i, j) <= v
    ensures BestScore(AllScores(m, m.numRows)) == Some(v)
  {
    BestScoreOfGrid(m);
  }

  lemma ExampleAllAtMostEight(m: Matrix)
    requires m == Matrix(5, 5, ExampleGrid()) && Valid(m)
    ensures forall i, j | 1 <= i <= 5 && 1 <= j <= 5 :: ScenicScore(m, i, j) <= 8
  {
    forall i, j | 1 <= i <= 5 && 1 <= j <= 5
      ensures ScenicScore(m, i, j) <= 8
    {
      ExampleAtMostEight(m, i, j);
    }
  }

  /** The answer for the worked example is 8. */
  lemma ExampleBestScore(m: Matrix)
    requires From(ExampleGrid()) == Some(m)
    ensures BestScore(AllScores(m, m.numRows)) == Some(8)
  {
    var g := ExampleGrid();
    assert |g| == 5 && |g[0]| == 5;
    assert m == Matrix(5, 5, g);
    ExampleAllAtMostEight(m);
    ExampleDirections(m);
    ExampleProduct(Parts(m, 4, 3));
    BestScoreIs(m, 8, 4, 3);
  }
}
