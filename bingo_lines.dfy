/** The bingo line engine of the board page (bingoUtils.js): the fixed table
    of twelve winning lines, which of them a board has completed, and which
    cell positions the grid highlights as a result. */
module BingoLines {

  /** A cell position, row-major: position = row * 5 + column. Positions
      outside 0..24 are accepted and simply never match a line. */
  type Position = int

  /** A winning line: five positions in table order. */
  type Line = seq<Position>

  /** The two fields of a board cell that the engine reads. */
  datatype Cell = Cell(position: Position, isActivated: bool)

  /** The twelve winning lines: rows top to bottom, columns left to right,
      then the main diagonal and the anti-diagonal. */
  const WinningLines: seq<Line> := [
    [0, 1, 2, 3, 4],
    [5, 6, 7, 8, 9],
    [10, 11, 12, 13, 14],
    [15, 16, 17, 18, 19],
    [20, 21, 22, 23, 24],
    [0, 5, 10, 15, 20],
    [1, 6, 11, 16, 21],
    [2, 7, 12, 17, 22],
    [3, 8, 13, 18, 23],
    [4, 9, 14, 19, 24],
    [0, 6, 12, 18, 24],
    [4, 8, 12, 16, 20]
  ]

  /** Row k of the grid. */
  function Row(k: int): Line { [5 * k, 5 * k + 1, 5 * k + 2, 5 * k + 3, 5 * k + 4] }

  /** Column k of the grid. */
  function Column(k: int): Line { [k, k + 5, k + 10, k + 15, k + 20] }

  ghost predicate NoDuplicates<T>(s: seq<T>) {
    forall i, j :: 0 <= i < j < |s| ==> s[i] != s[j]
  }

  /** a can be obtained from b by deleting elements: same order, nothing new. */
  ghost predicate IsSubsequence<T>(a: seq<T>, b: seq<T>)
    decreases |b|
  {
    if a == [] then true
    else if b == [] then false
    else (a[0] == b[0] && IsSubsequence(a[1..], b[1..])) || IsSubsequence(a, b[1..])
  }

  /** The table is the twelve canonical lines, each five distinct positions
      of the grid, no line twice. */
  lemma WinningLinesShape()
    ensures |WinningLines| == 12
    ensures forall k :: 0 <= k < 5 ==> WinningLines[k] == Row(k) && WinningLines[5 + k] == Column(k)
    ensures WinningLines[10] == [0, 6, 12, 18, 24] && WinningLines[11] == [4, 8, 12, 16, 20]
    ensures forall l :: l in WinningLines ==> |l| == 5 && NoDuplicates(l)
    ensures forall l, p :: l in WinningLines && p in l ==> 0 <= p <= 24
    ensures NoDuplicates(WinningLines)
  {
    forall k | 0 <= k < 5
      ensures WinningLines[k] == Row(k) && WinningLines[5 + k] == Column(k)
    {
      if k == 0 {} else if k == 1 {} else if k == 2 {} else if k == 3 {} else {}
    }
    forall l | l in WinningLines ensures |l| == 5 && NoDuplicates(l) && forall p :: p in l ==> 0 <= p <= 24 {
      var i :| 0 <= i < 12 && WinningLines[i] == l;
      LineFacts(i);
    }
    WinningLinesDistinct();
  }

  lemma WinningLinesDistinct()
    ensures NoDuplicates(WinningLines)
  {
    forall i, j | 0 <= i < j < 12 ensures WinningLines[i] != WinningLines[j] {
      DistinctLines(i, j);
    }
  }

  /** Each line lists its positions in increasing order within the grid. */
  lemma StrictlyIncreasingLine(i: int)
    requires 0 <= i < 12
    ensures var l := WinningLines[i];
      |l| == 5 && 0 <= l[0] && l[4] <= 24 && forall k :: 0 <= k < 4 ==> l[k] < l[k + 1]
  {
  }

  lemma LineFacts(i: int)
    requires 0 <= i < 12
    ensures var l := WinningLines[i];
      |l| == 5 && NoDuplicates(l) && forall p :: p in l ==> 0 <= p <= 24
  {
    var l := WinningLines[i];
    StrictlyIncreasingLine(i);
    forall a, b | 0 <= a < b < 5 ensures l[a] < l[b] {
      var k := a;
      while k < b
        invariant a <= k <= b && l[a] <= l[k]
        invariant k > a ==> l[a] < l[k]
      {
        k := k + 1;
      }
    }
  }

  lemma DistinctLines(i: int, j: int)
    requires 0 <= i < j < 12
    ensures WinningLines[i] != WinningLines[j]
  {
    var li, lj := WinningLines[i], WinningLines[j];
    assert li[0] != lj[0] || li[1] != lj[1];
  }

  /** The positions of the activated cells. Inactive cells contribute
      nothing, and a position activated by any one of its cells counts. */
  function ActivatedPositions(cells: seq<Cell>): set<Position> {
    set c | c in cells && c.isActivated :: c.position
  }

  /** Every position of the line is activated. */
  predicate IsComplete(line: Line, activated: set<Position>) {
    forall p :: p in line ==> p in activated
  }

  /** The lines among `lines` that are complete, in their given order. */
  function CompletedAmong(lines: seq<Line>, activated: set<Position>): (r: seq<Line>)
    ensures |r| <= |lines|
    ensures forall l :: l in r <==> l in lines && IsComplete(l, activated)
    ensures IsSubsequence(r, lines)
    ensures NoDuplicates(lines) ==> NoDuplicates(r)
  {
    if lines == [] then []
    else
      var rest := CompletedAmong(lines[1..], activated);
      if IsComplete(lines[0], activated) then
        assert [lines[0]] + rest == [lines[0]] + rest;
        [lines[0]] + rest
      else
        SubsequenceOfTail(rest, lines);
        rest
  }

  /** getCompletedLines: the winning lines whose every position is the
      position of an activated cell, in table order. */
  function GetCompletedLines(cells: seq<Cell>): (r: seq<Line>)
    ensures forall l :: l in r <==> l in WinningLines && IsComplete(l, ActivatedPositions(cells))
    ensures IsSubsequence(r, WinningLines)
  {
    CompletedAmong(WinningLines, ActivatedPositions(cells))
  }

  /** The union of the positions of the given lines, built line by line. */
  function HighlightSet(lines: seq<Line>): set<Position>
    decreases |lines|
  {
    if lines == [] then {}
    else HighlightSet(lines[..|lines| - 1]) + Elements(lines[|lines| - 1])
  }

  /** The positions of one line, as a set. */
  function Elements(line: Line): set<Position> {
    set p | p in line
  }

  /** getHighlightedPositions: adds every position of every line to one
      set, line by line and position by position. */
  method GetHighlightedPositions(completedLines: seq<Line>) returns (positions: set<Position>)
    ensures positions == HighlightSet(completedLines)
    ensures forall p :: p in positions <==> exists l :: l in completedLines && p in l
  {
    positions := {};
    var i := 0;
    while i < |completedLines|
      invariant 0 <= i <= |completedLines|
      invariant positions == HighlightSet(completedLines[..i])
    {
      var line := completedLines[i];
      var j := 0;
      while j < |line|
        invariant 0 <= j <= |line|
        invariant positions == HighlightSet(completedLines[..i]) + Elements(line[..j])
      {
        assert line[..j + 1] == line[..j] + [line[j]];
        positions := positions + {line[j]};
        j := j + 1;
      }
      assert line[..j] == line;
      assert completedLines[..i + 1][..i] == completedLines[..i];
      i := i + 1;
    }
    assert completedLines[..i] == completedLines;
    HighlightMembership(completedLines);
  }

  // ---------------------------------------------------------------------
  // Sequences

  lemma SubsequenceOfTail<T>(a: seq<T>, b: seq<T>)
    requires b != [] && IsSubsequence(a, b[1..])
    ensures IsSubsequence(a, b)
  {
  }

  lemma {:induction false} SubsequenceMembers<T>(a: seq<T>, b: seq<T>)
    requires IsSubsequence(a, b)
    ensures forall x :: x in a ==> x in b
    decreases |b|
  {
    if a != [] && b != [] {
      if a[0] == b[0] && IsSubsequence(a[1..], b[1..]) {
        SubsequenceMembers(a[1..], b[1..]);
        assert a == [a[0]] + a[1..];
      } else {
        SubsequenceMembers(a, b[1..]);
      }
    }
  }

  // ---------------------------------------------------------------------
  // Properties of the completed lines

  /** Exactly the complete winning lines are reported, each once, in table
      order, and never more than twelve. */
  lemma CompletedLinesCharacterization(cells: seq<Cell>)
    ensures var r := GetCompletedLines(cells);
      && |r| <= 12
      && IsSubsequence(r, WinningLines)
      && NoDuplicates(r)
      && (forall l :: l in r <==> l in WinningLines && IsComplete(l, ActivatedPositions(cells)))
  {
    WinningLinesShape();
  }

  /** Only the set of activated positions matters: inactive cells, the
      order of the cells and repeated cells make no difference. */
  lemma OnlyActivatedPositionsMatter(cells1: seq<Cell>, cells2: seq<Cell>)
    requires forall c :: c in cells1 && c.isActivated <==> c in cells2 && c.isActivated
    ensures GetCompletedLines(cells1) == GetCompletedLines(cells2)
  {
    assert ActivatedPositions(cells1) == ActivatedPositions(cells2);
  }

  /** Shuffling the cells does not change the result. */
  lemma OrderIndependent(cells1: seq<Cell>, cells2: seq<Cell>)
    requires multiset(cells1) == multiset(cells2)
    ensures GetCompletedLines(cells1) == GetCompletedLines(cells2)
  {
    forall c ensures c in cells1 <==> c in cells2 {
      assert c in cells1 <==> c in multiset(cells1);
      assert c in cells2 <==> c in multiset(cells2);
    }
    OnlyActivatedPositionsMatter(cells1, cells2);
  }

  /** More activated positions never lose a completed line: the smaller
      result is a subsequence of the larger one. */
  lemma {:induction false} CompletedAmongMonotone(lines: seq<Line>, a: set<Position>, b: set<Position>)
    requires a <= b
    ensures IsSubsequence(CompletedAmong(lines, a), CompletedAmong(lines, b))
    decreases |lines|
  {
    if lines != [] {
      CompletedAmongMonotone(lines[1..], a, b);
      var ra, rb := CompletedAmong(lines[1..], a), CompletedAmong(lines[1..], b);
      if IsComplete(lines[0], a) {
        assert IsComplete(lines[0], b);
        var xa, xb := [lines[0]] + ra, [lines[0]] + rb;
        assert xa[1..] == ra && xb[1..] == rb;
      } else if IsComplete(lines[0], b) {
        var xb := [lines[0]] + rb;
        assert xb[1..] == rb;
        SubsequenceOfTail(ra, xb);
      }
    }
  }

  /** Activating more cells never removes a completed line. */
  lemma ActivationMonotone(cells1: seq<Cell>, cells2: seq<Cell>)
    requires ActivatedPositions(cells1) <= ActivatedPositions(cells2)
    ensures IsSubsequence(GetCompletedLines(cells1), GetCompletedLines(cells2))
    ensures |GetCompletedLines(cells1)| <= |GetCompletedLines(cells2)|
  {
    CompletedAmongMonotone(WinningLines, ActivatedPositions(cells1), ActivatedPositions(cells2));
    SubsequenceLength(GetCompletedLines(cells1), GetCompletedLines(cells2));
  }

  lemma {:induction false} SubsequenceLength<T>(a: seq<T>, b: seq<T>)
    requires IsSubsequence(a, b)
    ensures |a| <= |b|
    decreases |b|
  {
    if a != [] && b != [] {
      if a[0] == b[0] && IsSubsequence(a[1..], b[1..]) {
        SubsequenceLength(a[1..], b[1..]);
      } else {
        SubsequenceLength(a, b[1..]);
      }
    }
  }

  // ---------------------------------------------------------------------
  // Properties of the highlight set

  /** A position is highlighted iff it lies on one of the given lines. */
  lemma {:induction false} HighlightMembership(lines: seq<Line>)
    ensures forall p :: p in HighlightSet(lines) <==> exists l :: l in lines && p in l
    decreases |lines|
  {
    if lines != [] {
      var init := lines[..|lines| - 1];
      HighlightMembership(init);
      assert HighlightSet(lines) == HighlightSet(init) + Elements(lines[|lines| - 1]);
      forall p ensures p in HighlightSet(lines) <==> exists l :: l in lines && p in l {
        if p in HighlightSet(lines) {
          if p in HighlightSet(init) {
            var l :| l in init && p in l;
            assert l in lines;
          } else {
            assert lines[|lines| - 1] in lines;
          }
        } else {
          forall l | l in lines ensures p !in l {
            var k :| 0 <= k < |lines| && lines[k] == l;
            if k < |lines| - 1 {
              assert init[k] == l;
            }
          }
        }
      }
    }
  }

  /** Every highlighted position of the completed lines is activated. */
  lemma HighlightedAreActivated(cells: seq<Cell>)
    ensures HighlightSet(GetCompletedLines(cells)) <= ActivatedPositions(cells)
  {
    var r := GetCompletedLines(cells);
    HighlightMembership(r);
    forall p | p in HighlightSet(r) ensures p in ActivatedPositions(cells) {
      var l :| l in r && p in l;
      assert IsComplete(l, ActivatedPositions(cells));
    }
  }

  /** Highlighted positions of the completed lines lie on the grid. */
  lemma HighlightedOnGrid(cells: seq<Cell>)
    ensures forall p :: p in HighlightSet(GetCompletedLines(cells)) ==> 0 <= p <= 24
  {
    var r := GetCompletedLines(cells);
    HighlightMembership(r);
    WinningLinesShape();
  }

  // ---------------------------------------------------------------------
  // Worked examples

  /** A full 25-cell board whose activated cells are those in `activated`. */
  function Board(activated: set<Position>): seq<Cell> {
    seq(25, i => Cell(i, i in activated))
  }

  lemma BoardActivated(activated: set<Position>)
    requires forall p :: p in activated ==> 0 <= p < 25
    ensures ActivatedPositions(Board(activated)) == activated
  {
    var b := Board(activated);
    forall p | p in activated ensures p in ActivatedPositions(b) {
      assert b[p] in b;
    }
  }

  lemma {:induction false} SubsequencePairOrder<T>(x: T, y: T, b: seq<T>)
    ensures IsSubsequence([x, y], b) ==> exists i, j :: 0 <= i < j < |b| && b[i] == x && b[j] == y
    decreases |b|
  {
    if b != [] {
      SubsequencePairOrder(x, y, b[1..]);
      if b[0] == x && IsSubsequence([x, y][1..], b[1..]) {
        SubsequenceMembers([x, y][1..], b[1..]);
        assert y in b[1..];
        var j :| 0 <= j < |b[1..]| && b[1..][j] == y;
        assert b[0] == x && b[j + 1] == y;
      } else if IsSubsequence([x, y], b[1..]) {
        var i, j :| 0 <= i < j < |b[1..]| && b[1..][i] == x && b[1..][j] == y;
        assert b[i + 1] == x && b[j + 1] == y;
      }
    }
  }

  /** Names the first elements of a short sequence, for the case analyses below. */
  lemma LeadingElements<T>(s: seq<T>)
    ensures |s| >= 2 ==> s[0] in s && s[1] in s
    ensures |s| >= 3 ==> s[2] in s
    ensures |s| == 2 ==> s == [s[0], s[1]]
  {
  }

  /** When no line is complete the result is empty. */
  lemma NoLineComplete(lines: seq<Line>, activated: set<Position>)
    requires forall i :: 0 <= i < |lines| ==> !IsComplete(lines[i], activated)
    ensures CompletedAmong(lines, activated) == []
  {
  }

  /** When exactly line k is complete the result is that line alone. */
  lemma OneLineComplete(lines: seq<Line>, activated: set<Position>, k: int)
    requires NoDuplicates(lines)
    requires 0 <= k < |lines| && IsComplete(lines[k], activated)
    requires forall i :: 0 <= i < |lines| && i != k ==> !IsComplete(lines[i], activated)
    ensures CompletedAmong(lines, activated) == [lines[k]]
  {
    var r := CompletedAmong(lines, activated);
    assert forall l :: l in r ==> l == lines[k];
    assert lines[k] in r;
    LeadingElements(r);
  }

  /** When exactly lines k1 < k2 are complete the result is both, in order. */
  lemma TwoLinesComplete(lines: seq<Line>, activated: set<Position>, k1: int, k2: int)
    requires NoDuplicates(lines)
    requires 0 <= k1 < k2 < |lines|
    requires IsComplete(lines[k1], activated) && IsComplete(lines[k2], activated)
    requires forall i :: 0 <= i < |lines| && i != k1 && i != k2 ==> !IsComplete(lines[i], activated)
    ensures CompletedAmong(lines, activated) == [lines[k1], lines[k2]]
  {
    var r := CompletedAmong(lines, activated);
    assert forall l :: l in r ==> l == lines[k1] || l == lines[k2];
    assert lines[k1] in r && lines[k2] in r;
    LeadingElements(r);
    SubsequencePairOrder(lines[k2], lines[k1], lines);
  }

  lemma Uncovered(l: Line, activated: set<Position>, p: Position)
    requires p in l && p !in activated
    ensures !IsComplete(l, activated)
  {
  }

  lemma EmptyInputExample()
    ensures GetCompletedLines([]) == []
  {
    var W := WinningLines;
    assert ActivatedPositions([]) == {};
    forall i | 0 <= i < 12 ensures !IsComplete(W[i], {}) {
      Uncovered(W[i], {}, W[i][0]);
    }
    NoLineComplete(W, {});
  }

  /** A board with no activated cell completes nothing. */
  lemma NothingActivatedExample(a: set<Position>)
    requires a == {}
    ensures CompletedAmong(WinningLines, a) == []
    ensures GetCompletedLines(Board(a)) == []
  {
    var W := WinningLines;
    BoardActivated(a);
    forall i | 0 <= i < 12 ensures !IsComplete(W[i], a) {
      Uncovered(W[i], a, W[i][0]);
    }
    NoLineComplete(W, a);
  }

  /** Four cells of a row complete nothing. */
  lemma PartialRowExample(a: set<Position>)
    requires a == {0, 1, 2, 3}
    ensures CompletedAmong(WinningLines, a) == []
    ensures GetCompletedLines(Board(a)) == []
  {
    var W := WinningLines;
    BoardActivated(a);
    forall i | 0 <= i < 12 ensures !IsComplete(W[i], a) {
      if i == 0 { Uncovered(W[i], a, W[i][4]); } else { Uncovered(W[i], a, W[i][1]); }
    }
    NoLineComplete(W, a);
  }

  /** Only row 0 activated: row 0 alone is complete. */
  lemma RowZeroExample(a: set<Position>)
    requires a == {0, 1, 2, 3, 4}
    ensures CompletedAmong(WinningLines, a) == [[0, 1, 2, 3, 4]]
    ensures GetCompletedLines(Board(a)) == [[0, 1, 2, 3, 4]]
  {
    var W := WinningLines;
    BoardActivated(a);
    forall i | 1 <= i < 12 ensures !IsComplete(W[i], a) {
      if i < 5 { Uncovered(W[i], a, W[i][0]); } else { Uncovered(W[i], a, W[i][1]); }
    }
    WinningLinesDistinct();
    OneLineComplete(W, a, 0);
  }

  /** Row 0 plus one cell off it: still only row 0 is complete. */
  lemma RowZeroPlusCellExample(a: set<Position>)
    requires a == {0, 1, 2, 3, 4, 5}
    ensures CompletedAmong(WinningLines, a) == [[0, 1, 2, 3, 4]]
  {
    var W := WinningLines;
    forall i | 1 <= i < 12 ensures !IsComplete(W[i], a) {
      if i < 5 { Uncovered(W[i], a, W[i][1]); } else { Uncovered(W[i], a, W[i][2]); }
    }
    WinningLinesDistinct();
    OneLineComplete(W, a, 0);
  }

  /** Only column 0 activated: column 0 alone is complete. */
  lemma ColumnZeroExample(a: set<Position>)
    requires a == {0, 5, 10, 15, 20}
    ensures CompletedAmong(WinningLines, a) == [[0, 5, 10, 15, 20]]
    ensures GetCompletedLines(Board(a)) == [[0, 5, 10, 15, 20]]
  {
    var W := WinningLines;
    BoardActivated(a);
    forall i | 0 <= i < 12 && i != 5 ensures !IsComplete(W[i], a) {
      if i == 11 { Uncovered(W[i], a, W[i][0]); } else { Uncovered(W[i], a, W[i][1]); }
    }
    WinningLinesDistinct();
    OneLineComplete(W, a, 5);
  }

  /** Only the main diagonal activated: it alone is complete. */
  lemma DiagonalExample(a: set<Position>)
    requires a == {0, 6, 12, 18, 24}
    ensures CompletedAmong(WinningLines, a) == [[0, 6, 12, 18, 24]]
    ensures GetCompletedLines(Board(a)) == [[0, 6, 12, 18, 24]]
  {
    var W := WinningLines;
    BoardActivated(a);
    forall i | 0 <= i < 12 && i != 10 ensures !IsComplete(W[i], a) {
      if i == 1 || i == 6 { Uncovered(W[i], a, W[i][0]); } else { Uncovered(W[i], a, W[i][1]); }
    }
    WinningLinesDistinct();
    OneLineComplete(W, a, 10);
  }

  /** Only the anti-diagonal activated: it alone is complete. */
  lemma AntiDiagonalExample(a: set<Position>)
    requires a == {4, 8, 12, 16, 20}
    ensures CompletedAmong(WinningLines, a) == [[4, 8, 12, 16, 20]]
    ensures GetCompletedLines(Board(a)) == [[4, 8, 12, 16, 20]]
  {
    var W := WinningLines;
    BoardActivated(a);
    forall i | 0 <= i < 11 ensures !IsComplete(W[i], a) {
      if i == 3 || i == 8 { Uncovered(W[i], a, W[i][0]); } else { Uncovered(W[i], a, W[i][1]); }
    }
    WinningLinesDistinct();
    OneLineComplete(W, a, 11);
  }

  /** Row 0 and column 0 activated: both complete, the row first. */
  lemma RowAndColumnExample(a: set<Position>)
    requires a == {0, 1, 2, 3, 4, 5, 10, 15, 20}
    ensures CompletedAmong(WinningLines, a) == [[0, 1, 2, 3, 4], [0, 5, 10, 15, 20]]
    ensures GetCompletedLines(Board(a)) == [[0, 1, 2, 3, 4], [0, 5, 10, 15, 20]]
  {
    var W := WinningLines;
    BoardActivated(a);
    forall i | 0 <= i < 12 && i != 0 && i != 5 ensures !IsComplete(W[i], a) {
      Uncovered(W[i], a, W[i][1]);
    }
    WinningLinesDistinct();
    TwoLinesComplete(W, a, 0, 5);
  }

  /** No lines highlight nothing. */
  lemma HighlightEmptyExample()
    ensures HighlightSet([]) == {}
  {
  }

  /** Row 0 and column 0 highlight nine positions, the shared corner once. */
  lemma HighlightRowAndColumnExample(lines: seq<Line>)
    requires lines == [[0, 1, 2, 3, 4], [0, 5, 10, 15, 20]]
    ensures HighlightSet(lines) == {0, 1, 2, 3, 4, 5, 10, 15, 20}
    ensures |HighlightSet(lines)| == 9
  {
    assert lines[..1][..0] == [];
    assert HighlightSet(lines[..1]) == Elements(lines[0]);
    assert Elements(lines[0]) == {0, 1, 2, 3, 4};
    assert Elements(lines[1]) == {0, 5, 10, 15, 20};
    NineCells();
  }

  lemma NineCells()
    ensures |{0, 1, 2, 3, 4, 5, 10, 15, 20}| == 9
  {
  }
}
