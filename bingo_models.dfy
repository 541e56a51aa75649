/** The stored records the board logic reads, reduced to the fields it
    uses, and the database constraints that hold of them (models.py). */
module BingoModels {

  /** A restaurant placed at one position of a template's 5x5 grid. */
  datatype TemplateItem = TemplateItem(position: int, restaurant: nat)

  /** A review written on a board; `user` is its author. */
  datatype Review = Review(id: nat, user: nat, restaurant: nat, isPublic: bool)

  /** The line targets a board may be created with. */
  const TargetChoices: set<nat> := {1, 3, 5}

  /** Validators and unique_together of template items: positions 0..24, no
      position twice and no restaurant twice within one template. */
  ghost predicate ValidItems(items: seq<TemplateItem>) {
    && (forall i :: 0 <= i < |items| ==> 0 <= items[i].position <= 24)
    && (forall i, j :: 0 <= i < j < |items| ==> items[i].position != items[j].position)
    && (forall i, j :: 0 <= i < j < |items| ==> items[i].restaurant != items[j].restaurant)
  }

  /** unique_together of reviews: at most one review per restaurant on a board. */
  ghost predicate ValidReviews(reviews: seq<Review>) {
    forall i, j :: 0 <= i < j < |reviews| ==> reviews[i].restaurant != reviews[j].restaurant
  }

  /** The restaurants the template places on the grid. */
  function TemplateRestaurants(items: seq<TemplateItem>): set<nat> {
    set it | it in items :: it.restaurant
  }

  /** The restaurants the board's reviews are about. */
  function ReviewedRestaurants(reviews: seq<Review>): set<nat> {
    set r | r in reviews :: r.restaurant
  }
}
