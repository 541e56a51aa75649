/** The board as the API returns it (serializers.py): the check that a new
    review is about a restaurant of the board's template, the cells of the
    board sorted by position, the completed-line count and the progress. */
module BoardSerializer {
  import opened Wrappers
  import opened BingoModels
  import BingoService
  import BingoLines
  import Sorting

  /** One cell of a serialized board. */
  datatype BoardCell = BoardCell(position: int, restaurant: nat, isActivated: bool, review: Option<Review>)

  /** The integer fields of the progress object. */
  datatype Progress = Progress(activatedCount: nat, totalCells: nat)

  datatype ValidationError = RestaurantNotInTemplate

  function CellPosition(c: BoardCell): int { c.position }

  /** ReviewCreateSerializer.validate: a review is accepted only for a
      restaurant that one of the template's items places on the grid. */
  function Validate(items: seq<TemplateItem>, restaurant: nat): (r: Option<ValidationError>)
    ensures r == None <==> exists i :: 0 <= i < |items| && items[i].restaurant == restaurant
  {
    if restaurant in TemplateRestaurants(items) then None
    else
      assert forall i :: 0 <= i < |items| ==> items[i] in items;
      Some(RestaurantNotInTemplate)
  }

  /** The reviews keyed by restaurant; a later review of the same restaurant
      replaces an earlier one, as in a dict comprehension. */
  function ReviewsByRestaurant(reviews: seq<Review>): (m: map<nat, Review>)
    ensures m.Keys == ReviewedRestaurants(reviews)
    ensures forall k :: k in m ==> m[k] in reviews && m[k].restaurant == k
    decreases |reviews|
  {
    if reviews == [] then map[]
    else
      var init := reviews[..|reviews| - 1];
      var last := reviews[|reviews| - 1];
      var m := ReviewsByRestaurant(init)[last.restaurant := last];
      assert reviews == init + [last];
      assert forall r :: r in reviews <==> r in init || r == last;
      m
  }

  /** The cell a template item becomes, given the reviews by restaurant. */
  function CellFor(item: TemplateItem, byRestaurant: map<nat, Review>): BoardCell {
    var review := if item.restaurant in byRestaurant then Some(byRestaurant[item.restaurant]) else None;
    BoardCell(item.position, item.restaurant, review.Some?, review)
  }

  /** get_cells: one cell per template item, each activated exactly when
      the board has a review of its restaurant, sorted by position. */
  method GetCells(items: seq<TemplateItem>, reviews: seq<Review>) returns (cells: seq<BoardCell>)
    ensures |cells| == |items|
    ensures Sorting.SortedBy(cells, CellPosition)
    ensures multiset(cells) == multiset(seq(|items|, i requires 0 <= i < |items| => CellFor(items[i], ReviewsByRestaurant(reviews))))
    ensures forall c :: c in cells ==>
      && (c.isActivated <==> c.restaurant in ReviewedRestaurants(reviews))
      && (c.review.Some? <==> c.isActivated)
      && (c.review.Some? ==> c.review.value in reviews && c.review.value.restaurant == c.restaurant)
    ensures forall c :: c in cells ==> exists i :: 0 <= i < |items| && items[i] == TemplateItem(c.position, c.restaurant)
  {
    var byRestaurant := ReviewsByRestaurant(reviews);
    var built: seq<BoardCell> := [];
    var i := 0;
    while i < |items|
      invariant 0 <= i <= |items|
      invariant built == seq(i, k requires 0 <= k < i => CellFor(items[k], byRestaurant))
    {
      built := built + [CellFor(items[i], byRestaurant)];
      i := i + 1;
    }
    cells := Sorting.SortBy(built, CellPosition);
    forall c | c in cells
      ensures && (c.isActivated <==> c.restaurant in ReviewedRestaurants(reviews))
              && (c.review.Some? <==> c.isActivated)
              && (c.review.Some? ==> c.review.value in reviews && c.review.value.restaurant == c.restaurant)
              && exists i :: 0 <= i < |items| && items[i] == TemplateItem(c.position, c.restaurant)
    {
      assert c in multiset(built);
      var k :| 0 <= k < |built| && built[k] == c;
      assert items[k] == TemplateItem(c.position, c.restaurant);
    }
  }

  /** get_completed_lines: the server's line count for the board. */
  method GetCompletedLines(items: seq<TemplateItem>, reviews: seq<Review>) returns (n: nat)
    ensures n == BingoService.CompletedLineCount(BingoService.ActivatedOf(items, ReviewedRestaurants(reviews)))
    ensures n <= 12
  {
    var activated := BingoService.GetActivatedPositions(items, reviews);
    n := BingoService.CountCompletedLines(activated);
  }

  /** get_progress, integer fields: one activated count per review, out of
      twenty-five cells. */
  function GetProgress(reviews: seq<Review>): (p: Progress)
  {
    Progress(|reviews|, 25)
  }

  // ---------------------------------------------------------------------
  // Properties

  /** The positions of the activated cells are the positions the service
      reports as activated. */
  lemma ActivatedCellsMatchService(items: seq<TemplateItem>, reviews: seq<Review>, cells: seq<BoardCell>)
    requires multiset(cells) == multiset(seq(|items|, i requires 0 <= i < |items| => CellFor(items[i], ReviewsByRestaurant(reviews))))
    ensures (set c | c in cells && c.isActivated :: c.position) == BingoService.ActivatedOf(items, ReviewedRestaurants(reviews))
  {
    var m := ReviewsByRestaurant(reviews);
    var built := seq(|items|, i requires 0 <= i < |items| => CellFor(items[i], m));
    forall c ensures c in cells <==> c in built {
      assert c in cells <==> c in multiset(cells);
      assert c in built <==> c in multiset(built);
    }
    var lhs := set c | c in cells && c.isActivated :: c.position;
    var rhs := BingoService.ActivatedOf(items, ReviewedRestaurants(reviews));
    forall p | p in lhs ensures p in rhs {
      var c :| c in cells && c.isActivated && c.position == p;
      var k :| 0 <= k < |built| && built[k] == c;
      assert items[k] in items;
    }
    forall p | p in rhs ensures p in lhs {
      var it :| it in items && it.restaurant in ReviewedRestaurants(reviews) && it.position == p;
      var k :| 0 <= k < |items| && items[k] == it;
      assert built[k] in cells;
    }
  }

  /** The cells the board page receives for a serialized board. */
  function PageCells(cells: seq<BoardCell>): (page: seq<BingoLines.Cell>)
    ensures |page| == |cells|
    ensures forall i :: 0 <= i < |cells| ==> page[i] == BingoLines.Cell(cells[i].position, cells[i].isActivated)
  {
    seq(|cells|, i requires 0 <= i < |cells| => BingoLines.Cell(cells[i].position, cells[i].isActivated))
  }

  /** The board page sees the same activated positions as the serializer. */
  lemma PageActivated(cells: seq<BoardCell>)
    ensures BingoLines.ActivatedPositions(PageCells(cells)) == (set c | c in cells && c.isActivated :: c.position)
  {
    var page := PageCells(cells);
    var lhs := set c | c in cells && c.isActivated :: c.position;
    forall p ensures p in BingoLines.ActivatedPositions(page) <==> p in lhs {
      if p in BingoLines.ActivatedPositions(page) {
        var c :| c in page && c.isActivated && c.position == p;
        var k :| 0 <= k < |page| && page[k] == c;
        assert cells[k] in cells;
      }
      if p in lhs {
        var c :| c in cells && c.isActivated && c.position == p;
        var k :| 0 <= k < |cells| && cells[k] == c;
        assert page[k] in page;
      }
    }
  }

  /** The board page, given these cells, reports as many completed lines
      as the completed_lines field of the same response. */
  lemma FrontendAgreesWithCompletedLines(items: seq<TemplateItem>, reviews: seq<Review>, cells: seq<BoardCell>)
    requires multiset(cells) == multiset(seq(|items|, i requires 0 <= i < |items| => CellFor(items[i], ReviewsByRestaurant(reviews))))
    ensures |BingoLines.GetCompletedLines(PageCells(cells))|
         == BingoService.CompletedLineCount(BingoService.ActivatedOf(items, ReviewedRestaurants(reviews)))
  {
    ActivatedCellsMatchService(items, reviews, cells);
    PageActivated(cells);
    BingoService.CountMatchesCompletedLines(PageCells(cells));
  }

  /** Under the database constraints, and with every review validated
      against the template, the review count in the progress object equals
      the number of activated cells. */
  lemma ProgressCountsActivatedCells(items: seq<TemplateItem>, reviews: seq<Review>)
    requires ValidItems(items) && ValidReviews(reviews)
    requires forall r :: r in reviews ==> Validate(items, r.restaurant) == None
    ensures GetProgress(reviews).totalCells == 25
    ensures GetProgress(reviews).activatedCount == |BingoService.ActivatedOf(items, ReviewedRestaurants(reviews))|
  {
    var R := ReviewedRestaurants(reviews);
    DistinctKeysCount(reviews);
    assert R <= TemplateRestaurants(items);
    ActivatedCount(items, R);
  }

  /** Reviews with pairwise distinct restaurants name |reviews| restaurants. */
  lemma {:induction false} DistinctKeysCount(reviews: seq<Review>)
    requires ValidReviews(reviews)
    ensures |ReviewedRestaurants(reviews)| == |reviews|
    decreases |reviews|
  {
    if reviews != [] {
      var init := reviews[..|reviews| - 1];
      var last := reviews[|reviews| - 1];
      DistinctKeysCount(init);
      assert reviews == init + [last];
      assert ReviewedRestaurants(reviews) == ReviewedRestaurants(init) + {last.restaurant};
      forall r | r in init ensures r.restaurant != last.restaurant {
        var k :| 0 <= k < |init| && init[k] == r;
      }
    }
  }

  /** Appending an item adds its position exactly when its restaurant is
      among the reviewed ones. */
  lemma ActivatedOfSnoc(init: seq<TemplateItem>, last: TemplateItem, R: set<nat>)
    ensures BingoService.ActivatedOf(init + [last], R)
         == BingoService.ActivatedOf(init, R) + (if last.restaurant in R then {last.position} else {})
  {
    assert forall it :: it in init + [last] <==> it in init || it == last;
  }

  /** A restaurant that no item names does not matter to the activation. */
  lemma ActivatedOfIgnores(items: seq<TemplateItem>, R: set<nat>, r: nat)
    requires forall it :: it in items ==> it.restaurant != r
    ensures BingoService.ActivatedOf(items, R - {r}) == BingoService.ActivatedOf(items, R)
  {
  }

  /** A position that no item has is never activated. */
  lemma ActivatedOfAvoids(items: seq<TemplateItem>, R: set<nat>, p: int)
    requires forall it :: it in items ==> it.position != p
    ensures p !in BingoService.ActivatedOf(items, R)
  {
  }

  /** With distinct positions and restaurants, the reviewed restaurants of
      the template light up exactly as many positions. */
  lemma {:induction false} ActivatedCount(items: seq<TemplateItem>, R: set<nat>)
    requires ValidItems(items)
    requires R <= TemplateRestaurants(items)
    ensures |BingoService.ActivatedOf(items, R)| == |R|
    decreases |items|
  {
    if items == [] {
      assert R == {};
    } else {
      var init := items[..|items| - 1];
      var last := items[|items| - 1];
      assert items == init + [last];
      assert ValidItems(init);
      forall r | r in init ensures r.restaurant != last.restaurant && r.position != last.position {
        var k :| 0 <= k < |init| && init[k] == r;
      }
      var R' := R - {last.restaurant};
      assert R' <= TemplateRestaurants(init);
      ActivatedCount(init, R');
      ActivatedOfIgnores(init, R, last.restaurant);
      ActivatedOfAvoids(init, R, last.position);
      ActivatedOfSnoc(init, last, R);
    }
  }
}
