/**
 * The `LikeStatusComments` table: one rating per (commentId, userId), with
 * an `isBanned` flag that hides the ratings of banned users, and the
 * statements `LikeStatusCommentsRawSqlRepository` runs against it.
 */
module LikeStatusComments {
  import opened Wrappers
  import opened Seqs

  /** One rating row. */
  datatype LikeRow = LikeRow(
    blogId: string,
    commentId: string,
    userId: string,
    isBanned: bool,
    likeStatus: LikeStatus,
    createdAt: string,
    commentOwnerId: string)

  /** The upsert's conflict target, `ON CONFLICT ("commentId", "userId")`. */
  function LikeKey(r: LikeRow): (string, string)
  {
    (r.commentId, r.userId)
  }

  // The WHERE clauses of the statements.

  /** `"commentId" = $1 AND "userId" = $2 AND "isBanned" = $3` */
  function RatingOf(commentId: string, userId: string, isBanned: bool): LikeRow -> bool
  {
    (r: LikeRow) => r.commentId == commentId && r.userId == userId && r.isBanned == isBanned
  }

  /** `"commentId" = $1 AND "isBanned" = $2 AND "likeStatus" = $3` */
  function Counted(commentId: string, isBanned: bool, likeStatus: LikeStatus): LikeRow -> bool
  {
    (r: LikeRow) => r.commentId == commentId && r.isBanned == isBanned && r.likeStatus == likeStatus
  }

  /** `"commentId" = $1 AND "isBanned" = $2`: the ratings of a comment whatever their status. */
  function OnComment(commentId: string, isBanned: bool): LikeRow -> bool
  {
    (r: LikeRow) => r.commentId == commentId && r.isBanned == isBanned
  }

  /**
   * `"userId" = $1 AND "blogId" = $2 OR "commentOwnerId" = $1 AND "blogId" = $2`;
   * AND binds tighter than OR.
   */
  function OfUserInBlog(userId: string, blogId: string): LikeRow -> bool
  {
    (r: LikeRow) => (r.userId == userId && r.blogId == blogId) || (r.commentOwnerId == userId && r.blogId == blogId)
  }

  /** `"blogId" = $1` */
  function InBlog(blogId: string): LikeRow -> bool
  {
    (r: LikeRow) => r.blogId == blogId
  }

  /** `"userId" = $1 OR "commentOwnerId" = $1`: ratings by the user or on the user's comments. */
  function OfUser(userId: string): LikeRow -> bool
  {
    (r: LikeRow) => r.userId == userId || r.commentOwnerId == userId
  }

  /** `SET "isBanned" = $n` */
  function SetBanned(isBanned: bool): LikeRow -> LikeRow
  {
    (r: LikeRow) => r.(isBanned := isBanned)
  }

  /** The user+blog condition reads as: in that blog, and by that user or on that user's comment. */
  lemma OfUserInBlogGrouping(userId: string, blogId: string, r: LikeRow)
    ensures OfUserInBlog(userId, blogId)(r) <==> InBlog(blogId)(r) && OfUser(userId)(r)
  {
  }

  class LikeStatusCommentsTable {
    var rows: seq<LikeRow>

    /** The unique index behind `ON CONFLICT ("commentId", "userId")`. */
    ghost predicate Valid()
      reads this
    {
      Unique(rows, LikeKey)
    }

    constructor ()
      ensures Valid() && rows == []
    {
      rows := [];
    }

    /**
     * `updateLikeStatusComment`: INSERT ... ON CONFLICT ("commentId", "userId")
     * DO UPDATE with all seven columns. Afterwards the only row with that
     * key is the new row; the others are as before, in the same order.
     * RETURNING "userId" always yields the written row, so the answer is true.
     */
    method UpdateLikeStatusComment(e: LikeRow) returns (ok: bool)
      requires Valid()
      modifies this
      ensures Valid()
      ensures rows == Upsert(old(rows), e, LikeKey)
      ensures Filter(rows, SameKey(LikeKey, LikeKey(e))) == [e]
      ensures Filter(rows, OtherKey(LikeKey, LikeKey(e))) == Filter(old(rows), OtherKey(LikeKey, LikeKey(e)))
      ensures ok
    {
      UpsertSpec(rows, e, LikeKey);
      rows := Upsert(rows, e, LikeKey);
      ok := true;
    }

    /**
     * `findOne`: the rows with that comment, user and ban flag; the unique
     * index leaves at most one.
     */
    function FindOne(commentId: string, userId: string, isBanned: bool): (r: seq<LikeRow>)
      reads this
      ensures forall x :: x in r <==> x in rows && x.commentId == commentId && x.userId == userId && x.isBanned == isBanned
      ensures Valid() ==> |r| <= 1
    {
      var r := Filter(rows, RatingOf(commentId, userId, isBanned));
      forall x ensures x in r <==> x in rows && RatingOf(commentId, userId, isBanned)(x) {
        FilterIn(rows, RatingOf(commentId, userId, isBanned), x);
      }
      AtMostOneRating(rows, commentId, userId, isBanned);
      r
    }

    /**
     * `countLikesDislikes`: how many rows of that comment with that ban flag
     * have that status; zero exactly when there is none.
     */
    function CountLikesDislikes(commentId: string, isBanned: bool, likeStatus: LikeStatus): (n: nat)
      reads this
      ensures n <= |rows|
      ensures n == 0 <==> forall x :: x in rows ==> !(x.commentId == commentId && x.isBanned == isBanned && x.likeStatus == likeStatus)
    {
      CountZero(rows, Counted(commentId, isBanned, likeStatus));
      Count(rows, Counted(commentId, isBanned, likeStatus))
    }

    /** `changeBanStatusLikesCommentsByUserIdBlogId`: set the flag on the user's rows in that blog. */
    method ChangeBanStatusLikesCommentsByUserIdBlogId(userId: string, blogId: string, isBanned: bool) returns (ok: bool)
      requires Valid()
      modifies this
      ensures Valid()
      ensures rows == SetWhere(old(rows), OfUserInBlog(userId, blogId), SetBanned(isBanned))
      ensures ok
    {
      SetWhereKeepsUnique(rows, OfUserInBlog(userId, blogId), SetBanned(isBanned), LikeKey);
      rows := SetWhere(rows, OfUserInBlog(userId, blogId), SetBanned(isBanned));
      ok := true;
    }

    /** `changeBanStatusLikesCommentsByBlogId`: set the flag on every row of the blog. */
    method ChangeBanStatusLikesCommentsByBlogId(blogId: string, isBanned: bool) returns (ok: bool)
      requires Valid()
      modifies this
      ensures Valid()
      ensures rows == SetWhere(old(rows), InBlog(blogId), SetBanned(isBanned))
      ensures ok
    {
      SetWhereKeepsUnique(rows, InBlog(blogId), SetBanned(isBanned), LikeKey);
      rows := SetWhere(rows, InBlog(blogId), SetBanned(isBanned));
      ok := true;
    }

    /** `changeBanStatusCommentsLikesByUserId`: set the flag on the user's rows in every blog. */
    method ChangeBanStatusCommentsLikesByUserId(userId: string, isBanned: bool) returns (ok: bool)
      requires Valid()
      modifies this
      ensures Valid()
      ensures rows == SetWhere(old(rows), OfUser(userId), SetBanned(isBanned))
      ensures ok
    {
      SetWhereKeepsUnique(rows, OfUser(userId), SetBanned(isBanned), LikeKey);
      rows := SetWhere(rows, OfUser(userId), SetBanned(isBanned));
      ok := true;
    }

    /** `removeLikesCommentsByBlogId`: delete the blog's rows and keep the rest. */
    method RemoveLikesCommentsByBlogId(blogId: string) returns (ok: bool)
      requires Valid()
      modifies this
      ensures Valid()
      ensures rows == Filter(old(rows), Not(InBlog(blogId)))
      ensures multiset(old(rows)) == multiset(rows) + multiset(Filter(old(rows), InBlog(blogId)))
      ensures ok
    {
      FilterSplit(rows, InBlog(blogId));
      FilterKeepsUnique(rows, Not(InBlog(blogId)), LikeKey);
      rows := Filter(rows, Not(InBlog(blogId)));
      ok := true;
    }
  }

  /** With (commentId, userId) unique there is at most one rating per comment, user and flag. */
  lemma AtMostOneRating(rows: seq<LikeRow>, commentId: string, userId: string, isBanned: bool)
    ensures Unique(rows, LikeKey) ==> |Filter(rows, RatingOf(commentId, userId, isBanned))| <= 1
  {
    var r := Filter(rows, RatingOf(commentId, userId, isBanned));
    if Unique(rows, LikeKey) {
      FilterKeepsUnique(rows, RatingOf(commentId, userId, isBanned), LikeKey);
      assert |r| > 1 ==> LikeKey(r[0]) == LikeKey(r[1]);
    }
  }

  // ---------------------------------------------------------------------
  // Properties of the table across statements
  // ---------------------------------------------------------------------

  /**
   * One user, one vote: after a rating is upserted, a status count sees the
   * ratings of the other (comment, user) pairs as before plus the new
   * rating; the user's previous rating of that comment is counted no longer.
   */
  lemma RatingCountsOnce(rows: seq<LikeRow>, e: LikeRow, commentId: string, isBanned: bool, likeStatus: LikeStatus)
    requires Unique(rows, LikeKey)
    ensures Count(Upsert(rows, e, LikeKey), Counted(commentId, isBanned, likeStatus))
            == Count(Filter(rows, OtherKey(LikeKey, LikeKey(e))), Counted(commentId, isBanned, likeStatus))
               + (if e.commentId == commentId && e.isBanned == isBanned && e.likeStatus == likeStatus then 1 else 0)
  {
    UpsertCount(rows, e, LikeKey, Counted(commentId, isBanned, likeStatus));
  }

  /** The likes and the dislikes of a comment together are at most its ratings. */
  lemma LikesAndDislikesBounded(rows: seq<LikeRow>, commentId: string, isBanned: bool)
    ensures Count(rows, Counted(commentId, isBanned, Like)) + Count(rows, Counted(commentId, isBanned, Dislike))
            <= Count(rows, OnComment(commentId, isBanned))
  {
    CountDisjoint(rows, Counted(commentId, isBanned, Like), Counted(commentId, isBanned, Dislike), OnComment(commentId, isBanned));
  }

  /** The user ban applied twice is the user ban applied once. */
  lemma BanByUserIdempotent(rows: seq<LikeRow>, userId: string, isBanned: bool)
    ensures SetWhere(SetWhere(rows, OfUser(userId), SetBanned(isBanned)), OfUser(userId), SetBanned(isBanned))
            == SetWhere(rows, OfUser(userId), SetBanned(isBanned))
  {
    SetWhereIdempotent(rows, OfUser(userId), SetBanned(isBanned));
  }

  /** After a user ban, none of the user's ratings is found or counted as unbanned. */
  lemma BannedUserRatingsHidden(rows: seq<LikeRow>, userId: string, commentId: string, likeStatus: LikeStatus)
    ensures Filter(SetWhere(rows, OfUser(userId), SetBanned(true)), RatingOf(commentId, userId, false)) == []
    ensures Count(SetWhere(rows, OfUser(userId), SetBanned(true)), Counted(commentId, false, likeStatus))
            == Count(Filter(rows, Not(OfUser(userId))), Counted(commentId, false, likeStatus))
  {
    var after := SetWhere(rows, OfUser(userId), SetBanned(true));
    forall x | x in after ensures !RatingOf(commentId, userId, false)(x) {
      var i :| 0 <= i < |after| && after[i] == x;
    }
    FilterKeepsNone(after, RatingOf(commentId, userId, false));
    BanHidesFromCount(rows, OfUser(userId), Counted(commentId, false, likeStatus));
  }

  /**
   * Flagging the rows `p` accepts as banned removes them from every count
   * of unbanned rows and leaves the other rows' count as it was.
   */
  lemma {:induction false} BanHidesFromCount(rows: seq<LikeRow>, p: LikeRow -> bool, c: LikeRow -> bool)
    requires forall x :: c(x) == (c(x.(isBanned := false)) && !x.isBanned)
    ensures Count(SetWhere(rows, p, SetBanned(true)), c) == Count(Filter(rows, Not(p)), c)
  {
    if rows != [] {
      BanHidesFromCount(rows[1..], p, c);
      var after := SetWhere(rows, p, SetBanned(true));
      assert after == [if p(rows[0]) then SetBanned(true)(rows[0]) else rows[0]] + SetWhere(rows[1..], p, SetBanned(true));
      assert after[1..] == SetWhere(rows[1..], p, SetBanned(true));
      if p(rows[0]) {
        assert !c(after[0]);
        assert Filter(rows, Not(p)) == Filter(rows[1..], Not(p));
      } else {
        assert Filter(rows, Not(p)) == [rows[0]] + Filter(rows[1..], Not(p));
        assert ([rows[0]] + Filter(rows[1..], Not(p)))[1..] == Filter(rows[1..], Not(p));
      }
    }
  }

  /** Deleting a blog's ratings leaves none of that blog and every rating of other blogs. */
  lemma RemoveByBlogExact(rows: seq<LikeRow>, blogId: string, x: LikeRow)
    ensures x in Filter(rows, Not(InBlog(blogId))) <==> x in rows && x.blogId != blogId
  {
    FilterIn(rows, Not(InBlog(blogId)), x);
  }
}
