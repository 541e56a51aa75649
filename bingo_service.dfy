/** The server-side line engine (services.py): which positions of a board
    are activated by its reviews, how many winning lines they complete, and
    whether the board has reached its target. */
module BingoService {
  import opened BingoModels
  import BingoLines

  /** The server's own copy of the twelve winning lines. */
  const WinningLines: seq<seq<int>> := [
    [0, 1, 2, 3, 4],
    [5, 6, 7, 8, 9],
    [10, 11, 12, 13, 14],
    [15, 16, 17, 18, 19],
    [20, 21, 22, 23, 24],
    [0, 5, 10, 15, 20],
    [1, 6, 11, 16, 21],
    [2, 7, 12, 17, 22],
    [3, 8, 13, 18, 23],
    [4, 9, 14, 19, 24],
    [0, 6, 12, 18, 24],
    [4, 8, 12, 16, 20]
  ]

  /** Positions of the template items whose restaurant has been reviewed. */
  function ActivatedOf(items: seq<TemplateItem>, reviewed: set<nat>): set<int> {
    set it | it in items && it.restaurant in reviewed :: it.position
  }

  /** How many of `lines` from index `i` on have every position in
      `activated`. */
  function CountFrom(lines: seq<seq<int>>, i: nat, activated: set<int>): (n: nat)
    ensures i <= |lines| ==> n <= |lines| - i
    ensures n == 0 <==> forall k :: i <= k < |lines| ==> !BingoLines.IsComplete(lines[k], activated)
    decreases |lines| - i
  {
    if i >= |lines| then 0
    else (if BingoLines.IsComplete(lines[i], activated) then 1 else 0) + CountFrom(lines, i + 1, activated)
  }

  /** The number of winning lines `activated` completes. */
  function CompletedLineCount(activated: set<int>): (n: nat)
    ensures n <= 12
    ensures n == 0 <==> forall l :: l in WinningLines ==> !BingoLines.IsComplete(l, activated)
  {
    CountFrom(WinningLines, 0, activated)
  }

  /** get_activated_positions: collects, item by item, the position of every
      template item whose restaurant appears among the board's reviews. */
  method GetActivatedPositions(items: seq<TemplateItem>, reviews: seq<Review>) returns (activated: set<int>)
    ensures activated == ActivatedOf(items, ReviewedRestaurants(reviews))
    ensures forall p :: p in activated <==>
      exists i :: 0 <= i < |items| && items[i].position == p && items[i].restaurant in ReviewedRestaurants(reviews)
  {
    var reviewed := ReviewedRestaurants(reviews);
    activated := {};
    var i := 0;
    while i < |items|
      invariant 0 <= i <= |items|
      invariant activated == ActivatedOf(items[..i], reviewed)
    {
      assert items[..i + 1] == items[..i] + [items[i]];
      if items[i].restaurant in reviewed {
        activated := activated + {items[i].position};
      }
      i := i + 1;
    }
    assert items[..i] == items;
    forall p ensures p in activated <==>
      exists k :: 0 <= k < |items| && items[k].position == p && items[k].restaurant in reviewed
    {
      if p in activated {
        var it :| it in items && it.restaurant in reviewed && it.position == p;
        var k :| 0 <= k < |items| && items[k] == it;
      } else {
        forall k | 0 <= k < |items| && items[k].restaurant in reviewed ensures items[k].position != p {
          assert items[k] in items;
        }
      }
    }
  }

  /** count_completed_lines: walks the table once, counting the lines whose
      every position is activated. */
  method CountCompletedLines(activated: set<int>) returns (count: nat)
    ensures count == CompletedLineCount(activated)
    ensures count <= 12
  {
    count := CountCompleteIn(WinningLines, activated);
  }

  /** The loop of count_completed_lines over a given table. */
  method CountCompleteIn(lines: seq<seq<int>>, activated: set<int>) returns (count: nat)
    ensures count == CountFrom(lines, 0, activated)
    ensures count <= |lines|
  {
    count := 0;
    var i := 0;
    while i < |lines|
      invariant 0 <= i <= |lines|
      invariant count <= i
      invariant count + CountFrom(lines, i, activated) == CountFrom(lines, 0, activated)
    {
      if forall p :: p in lines[i] ==> p in activated {
        count := count + 1;
      }
      i := i + 1;
    }
  }

  /** check_board_completion: the board has reached its target exactly when
      its reviews complete at least target_line_count lines. */
  method CheckBoardCompletion(items: seq<TemplateItem>, reviews: seq<Review>, targetLineCount: nat)
    returns (completed: bool)
    ensures completed <==> CompletedLineCount(ActivatedOf(items, ReviewedRestaurants(reviews))) >= targetLineCount
    ensures targetLineCount > 12 ==> !completed
  {
    var activated := GetActivatedPositions(items, reviews);
    var lines := CountCompletedLines(activated);
    completed := lines >= targetLineCount;
  }

  // ---------------------------------------------------------------------
  // Properties

  /** The server table equals the board page's table line by line. */
  lemma TablesAgree()
    ensures WinningLines == BingoLines.WinningLines
  {
  }

  /** Counting complete lines from index `i` is the length of filtering
      the rest of the table. */
  lemma {:induction false} CountFromIsFilterLength(lines: seq<seq<int>>, i: nat, activated: set<int>)
    requires i <= |lines|
    ensures CountFrom(lines, i, activated) == |BingoLines.CompletedAmong(lines[i..], activated)|
    decreases |lines| - i
  {
    if i < |lines| {
      CountFromIsFilterLength(lines, i + 1, activated);
      assert lines[i..][1..] == lines[i + 1..];
    }
  }

  /** The server's count for a set of positions is the number of lines the
      board page reports as completed for the same activated positions. */
  lemma CountMatchesFrontend(activated: set<int>)
    ensures CompletedLineCount(activated) == |BingoLines.CompletedAmong(BingoLines.WinningLines, activated)|
    ensures CompletedLineCount(activated) <= 12
  {
    CountFromIsFilterLength(WinningLines, 0, activated);
    assert WinningLines[0..] == BingoLines.WinningLines;
  }

  /** The same, stated over the cells the board page receives. */
  lemma CountMatchesCompletedLines(cells: seq<BingoLines.Cell>)
    ensures CompletedLineCount(BingoLines.ActivatedPositions(cells)) == |BingoLines.GetCompletedLines(cells)|
  {
    CountMatchesFrontend(BingoLines.ActivatedPositions(cells));
  }

  /** More activated positions never lower the count. */
  lemma CountMonotone(a: set<int>, b: set<int>)
    requires a <= b
    ensures CompletedLineCount(a) <= CompletedLineCount(b)
  {
    CountMatchesFrontend(a);
    CountMatchesFrontend(b);
    BingoLines.CompletedAmongMonotone(BingoLines.WinningLines, a, b);
    BingoLines.SubsequenceLength(BingoLines.CompletedAmong(BingoLines.WinningLines, a),
                                 BingoLines.CompletedAmong(BingoLines.WinningLines, b));
  }

  /** More reviews never turn a completed board back into an incomplete one. */
  lemma CompletionMonotone(items: seq<TemplateItem>, reviews1: seq<Review>, reviews2: seq<Review>, target: nat)
    requires ReviewedRestaurants(reviews1) <= ReviewedRestaurants(reviews2)
    requires CompletedLineCount(ActivatedOf(items, ReviewedRestaurants(reviews1))) >= target
    ensures CompletedLineCount(ActivatedOf(items, ReviewedRestaurants(reviews2))) >= target
  {
    CountMonotone(ActivatedOf(items, ReviewedRestaurants(reviews1)), ActivatedOf(items, ReviewedRestaurants(reviews2)));
  }

  /** With no reviews nothing is activated and no line is complete. */
  lemma NoReviewsNoActivation(items: seq<TemplateItem>)
    ensures ActivatedOf(items, ReviewedRestaurants([])) == {}
    ensures CompletedLineCount({}) == 0
  {
    assert ReviewedRestaurants([]) == {};
    var none: set<int> := {};
    CountMatchesFrontend(none);
    BingoLines.NothingActivatedExample(none);
  }

  /** Activated positions are positions of the template, so on the grid. */
  lemma ActivatedOnGrid(items: seq<TemplateItem>, reviewed: set<nat>)
    requires ValidItems(items)
    ensures forall p :: p in ActivatedOf(items, reviewed) ==> 0 <= p <= 24
  {
    forall p | p in ActivatedOf(items, reviewed) ensures 0 <= p <= 24 {
      var it :| it in items && it.restaurant in reviewed && it.position == p;
      var k :| 0 <= k < |items| && items[k] == it;
    }
  }

  /** No set of positions completes more than twelve lines, so a target
      above twelve can never be met. */
  lemma TargetAboveTwelveUnreachable(activated: set<int>, target: nat)
    requires target > 12
    ensures CompletedLineCount(activated) < target
  {
    CountMatchesFrontend(activated);
  }

  /** Four cells of a row complete no line. */
  lemma CountPartialRowExample(a: set<int>)
    requires a == {0, 1, 2, 3}
    ensures CompletedLineCount(a) == 0
  {
    CountMatchesFrontend(a);
    BingoLines.PartialRowExample(a);
  }

  /** One row completes one line. */
  lemma CountRowExample(a: set<int>)
    requires a == {0, 1, 2, 3, 4}
    ensures CompletedLineCount(a) == 1
  {
    CountMatchesFrontend(a);
    BingoLines.RowZeroExample(a);
  }

  /** A row plus one cell off it still completes one line. */
  lemma CountRowPlusCellExample(a: set<int>)
    requires a == {0, 1, 2, 3, 4, 5}
    ensures CompletedLineCount(a) == 1
  {
    CountMatchesFrontend(a);
    BingoLines.RowZeroPlusCellExample(a);
  }

  /** One column completes one line. */
  lemma CountColumnExample(a: set<int>)
    requires a == {0, 5, 10, 15, 20}
    ensures CompletedLineCount(a) == 1
  {
    CountMatchesFrontend(a);
    BingoLines.ColumnZeroExample(a);
  }

  /** The main diagonal completes one line. */
  lemma CountDiagonalExample(a: set<int>)
    requires a == {0, 6, 12, 18, 24}
    ensures CompletedLineCount(a) == 1
  {
    CountMatchesFrontend(a);
    BingoLines.DiagonalExample(a);
  }

  /** The anti-diagonal completes one line. */
  lemma CountAntiDiagonalExample(a: set<int>)
    requires a == {4, 8, 12, 16, 20}
    ensures CompletedLineCount(a) == 1
  {
    CountMatchesFrontend(a);
    BingoLines.AntiDiagonalExample(a);
  }

  /** A row together with a column completes two lines. */
  lemma CountRowAndColumnExample(a: set<int>)
    requires a == {0, 1, 2, 3, 4, 5, 10, 15, 20}
    ensures CompletedLineCount(a) == 2
  {
    CountMatchesFrontend(a);
    BingoLines.RowAndColumnExample(a);
  }
}
