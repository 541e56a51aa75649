/** Likes and comments on public reviews (views.py): the like toggle, the
    comment list and comment creation, and deleting one's own comment. */
module ReviewSocial {
  import opened BingoModels

  /** A like is a (user, review) pair; a user likes a review at most once. */
  type Like = (nat, nat)

  datatype Comment = Comment(id: nat, review: nat, user: nat, content: string)

  datatype LikeResponse = LikeNotFound | LikeToggled(isLiked: bool, likeCount: nat)

  datatype CommentsResponse =
    | CommentsNotFound
    | CommentList(comments: seq<Comment>)
    | Unauthorized
    | CommentCreated(comment: Comment)
    | CommentRejected

  datatype DeleteResponse = CommentNotFound | Forbidden | NoContent

  /** The lookup both endpoints start with: a review with this id that is public. */
  predicate IsPublicReview(reviews: seq<Review>, id: nat) {
    exists r :: r in reviews && r.id == id && r.isPublic
  }

  /** The likes of one review. */
  function LikesOn(likes: set<Like>, review: nat): set<Like> {
    set l | l in likes && l.1 == review
  }

  /** The like set after flipping one like. */
  function Toggled(likes: set<Like>, like: Like): (r: set<Like>)
    ensures like in r <==> like !in likes
    ensures forall l :: l != like ==> (l in r <==> l in likes)
  {
    if like in likes then likes - {like} else likes + {like}
  }

  /** The comments of one review, in stored order. */
  function CommentsOf(comments: seq<Comment>, review: nat): (r: seq<Comment>)
    ensures forall c :: c in r <==> c in comments && c.review == review
    ensures |r| <= |comments|
  {
    if comments == [] then []
    else
      var rest := CommentsOf(comments[1..], review);
      assert forall c :: c in comments <==> c == comments[0] || c in comments[1..];
      if comments[0].review == review then [comments[0]] + rest else rest
  }

  /** The comments with any id but `id`, in stored order. */
  function WithoutComment(comments: seq<Comment>, id: nat): (r: seq<Comment>)
    ensures forall c :: c in r <==> c in comments && c.id != id
    ensures |r| <= |comments|
  {
    if comments == [] then []
    else
      var rest := WithoutComment(comments[1..], id);
      assert forall c :: c in comments <==> c == comments[0] || c in comments[1..];
      if comments[0].id != id then [comments[0]] + rest else rest
  }

  ghost predicate DistinctCommentIds(comments: seq<Comment>) {
    forall i, j :: 0 <= i < j < |comments| ==> comments[i].id != comments[j].id
  }

  /** The review, like and comment tables. */
  class SocialStore {
    var reviews: seq<Review>
    var likes: set<Like>
    var comments: seq<Comment>

    ghost predicate Valid()
      reads this
    {
      DistinctCommentIds(comments)
    }

    constructor (reviews: seq<Review>)
      ensures Valid()
      ensures this.reviews == reviews && likes == {} && comments == []
    {
      this.reviews := reviews;
      likes := {};
      comments := [];
    }

    /** review_like_toggle: a missing or private review is not found;
        otherwise the user's like is created if absent and deleted if
        present, and the response carries the review's like count after. */
    method ToggleLike(user: nat, reviewId: nat) returns (resp: LikeResponse)
      modifies this
      ensures reviews == old(reviews) && comments == old(comments)
      ensures !IsPublicReview(reviews, reviewId) ==> resp == LikeNotFound && likes == old(likes)
      ensures IsPublicReview(reviews, reviewId) ==>
        && likes == Toggled(old(likes), (user, reviewId))
        && resp == LikeToggled((user, reviewId) !in old(likes), |LikesOn(likes, reviewId)|)
    {
      if !IsPublicReview(reviews, reviewId) {
        return LikeNotFound;
      }
      var created := (user, reviewId) !in likes;
      if created {
        likes := likes + {(user, reviewId)};
      } else {
        likes := likes - {(user, reviewId)};
      }
      resp := LikeToggled(created, |LikesOn(likes, reviewId)|);
    }

    /** review_comments: a missing or private review is not found; a read
        lists its comments; a write needs a signed-in user and content the
        comment serializer accepts, and appends the new comment. */
    method Comments(user: nat, signedIn: bool, reviewId: nat, isWrite: bool,
                    content: string, contentAccepted: bool, newId: nat)
      returns (resp: CommentsResponse)
      requires Valid()
      requires forall c :: c in comments ==> c.id != newId
      modifies this
      ensures Valid()
      ensures reviews == old(reviews) && likes == old(likes)
      ensures !IsPublicReview(reviews, reviewId) ==> resp == CommentsNotFound
      ensures IsPublicReview(reviews, reviewId) && !isWrite ==> resp == CommentList(CommentsOf(comments, reviewId))
      ensures IsPublicReview(reviews, reviewId) && isWrite && !signedIn ==> resp == Unauthorized
      ensures IsPublicReview(reviews, reviewId) && isWrite && signedIn && !contentAccepted ==> resp == CommentRejected
      ensures resp.CommentCreated? <==> IsPublicReview(reviews, reviewId) && isWrite && signedIn && contentAccepted
      ensures resp.CommentCreated? ==>
        resp.comment == Comment(newId, reviewId, user, content) && comments == old(comments) + [resp.comment]
      ensures !resp.CommentCreated? ==> comments == old(comments)
    {
      if !IsPublicReview(reviews, reviewId) {
        return CommentsNotFound;
      }
      if !isWrite {
        return CommentList(CommentsOf(comments, reviewId));
      }
      if !signedIn {
        return Unauthorized;
      }
      if !contentAccepted {
        return CommentRejected;
      }
      var comment := Comment(newId, reviewId, user, content);
      comments := comments + [comment];
      resp := CommentCreated(comment);
    }

    /** review_comment_delete: a comment with this id on this review must
        exist, and only its author may delete it. */
    method DeleteComment(user: nat, reviewId: nat, commentId: nat) returns (resp: DeleteResponse)
      requires Valid()
      modifies this
      ensures Valid()
      ensures reviews == old(reviews) && likes == old(likes)
      ensures resp == CommentNotFound <==> !exists c :: c in old(comments) && c.id == commentId && c.review == reviewId
      ensures resp == Forbidden <==> exists c :: c in old(comments) && c.id == commentId && c.review == reviewId && c.user != user
      ensures resp != NoContent ==> comments == old(comments)
      ensures resp == NoContent ==> comments == WithoutComment(old(comments), commentId)
      ensures resp == NoContent ==> |comments| == |old(comments)| - 1
    {
      var i := 0;
      while i < |comments| && !(comments[i].id == commentId && comments[i].review == reviewId)
        invariant 0 <= i <= |comments|
        invariant forall k :: 0 <= k < i ==> !(comments[k].id == commentId && comments[k].review == reviewId)
      {
        i := i + 1;
      }
      if i == |comments| {
        return CommentNotFound;
      }
      forall c | c in comments && c.id == commentId ensures c == comments[i] {
        var k :| 0 <= k < |comments| && comments[k] == c;
      }
      if comments[i].user != user {
        return Forbidden;
      }
      comments := WithoutComment(comments, commentId);
      WithoutCommentKeepsDistinct(old(comments), commentId);
      resp := NoContent;
    }
  }

  // ---------------------------------------------------------------------
  // Properties

  /** Removing the comment with a given id keeps ids distinct and, when
      such a comment exists, removes exactly one comment. */
  lemma {:induction false} WithoutCommentKeepsDistinct(comments: seq<Comment>, id: nat)
    requires DistinctCommentIds(comments)
    ensures DistinctCommentIds(WithoutComment(comments, id))
    ensures (exists c :: c in comments && c.id == id) ==> |WithoutComment(comments, id)| == |comments| - 1
    decreases |comments|
  {
    if comments != [] {
      var tail := comments[1..];
      assert DistinctCommentIds(tail);
      WithoutCommentKeepsDistinct(tail, id);
      forall c | c in tail ensures c.id != comments[0].id {
        var k :| 0 <= k < |tail| && tail[k] == c;
        assert comments[k + 1] == c;
      }
      if comments[0].id != id {
        FrontKeepsDistinct(comments[0], WithoutComment(tail, id));
        assert (exists c :: c in comments && c.id == id) ==> exists c :: c in tail && c.id == id;
      } else {
        WithoutAbsent(tail, id);
      }
    }
  }

  lemma FrontKeepsDistinct(c: Comment, rest: seq<Comment>)
    requires DistinctCommentIds(rest)
    requires forall d :: d in rest ==> d.id != c.id
    ensures DistinctCommentIds([c] + rest)
  {
    forall i, j | 0 <= i < j < |[c] + rest| ensures ([c] + rest)[i].id != ([c] + rest)[j].id {
      if i == 0 {
        assert rest[j - 1] in rest;
      }
    }
  }

  /** Removing an id no comment has changes nothing. */
  lemma {:induction false} WithoutAbsent(comments: seq<Comment>, id: nat)
    requires forall c :: c in comments ==> c.id != id
    ensures WithoutComment(comments, id) == comments
    decreases |comments|
  {
    if comments != [] {
      assert comments[0] in comments;
      assert forall c :: c in comments[1..] ==> c in comments;
      WithoutAbsent(comments[1..], id);
      assert comments == [comments[0]] + comments[1..];
    }
  }

  /** Toggling the same like twice restores the like set. */
  lemma ToggleTwice(likes: set<Like>, like: Like)
    ensures Toggled(Toggled(likes, like), like) == likes
  {
  }

  /** A toggle moves the review's like count by exactly one: up when the
      like is created, down when it is deleted. */
  lemma ToggleCount(likes: set<Like>, user: nat, review: nat)
    ensures (user, review) !in likes ==> |LikesOn(Toggled(likes, (user, review)), review)| == |LikesOn(likes, review)| + 1
    ensures (user, review) in likes ==> |LikesOn(Toggled(likes, (user, review)), review)| == |LikesOn(likes, review)| - 1
  {
    var like := (user, review);
    if like in likes {
      assert LikesOn(Toggled(likes, like), review) == LikesOn(likes, review) - {like};
    } else {
      assert LikesOn(Toggled(likes, like), review) == LikesOn(likes, review) + {like};
    }
  }

  /** A toggle leaves the like counts of every other review as they were. */
  lemma ToggleOtherReviews(likes: set<Like>, user: nat, review: nat, other: nat)
    requires other != review
    ensures LikesOn(Toggled(likes, (user, review)), other) == LikesOn(likes, other)
  {
  }
}
