/**
 * `LikeStatusCommentsRepo`: the ORM path for rating a comment. It builds a
 * fresh `LikeStatusCommentsEntity` from the rating, the current user and the
 * rated comment, and saves it; any failure of the save is answered with
 * InternalServerError. The uuid and the clock are parameters here, and so
 * is the outcome of the save.
 */
module LikeStatusCommentsRepo {
  import opened Wrappers
  import opened Seqs

  datatype LikeStatusDto = LikeStatusDto(likeStatus: LikeStatus)

  /** The authenticated user (`CurrentUserDto`). */
  datatype CurrentUser = CurrentUser(userId: string, login: string, isBanned: bool)

  /** The fields of the found comment the builder reads. */
  datatype FoundComment = FoundComment(id: string, blogId: string, postId: string, commentatorUserId: string)

  /** A `UsersEntity` reference; fields the builder does not assign stay unset. */
  datatype UserRef = UserRef(userId: string, login: Option<string>, isBanned: Option<bool>)

  /**
   * The object the builder returns. The timestamp is assigned to `addedAt`;
   * blog, post and comment are references holding only their id.
   */
  datatype LikeStatusCommentsEntity = LikeStatusCommentsEntity(
    id: string,
    likeStatus: LikeStatus,
    addedAt: string,
    isBanned: bool,
    commentId: string,
    ratedCommentUser: UserRef,
    blogId: string,
    postId: string,
    commentOwner: UserRef)

  function EntityId(e: LikeStatusCommentsEntity): string
  {
    e.id
  }

  /**
   * `createLikeStatusCommentsEntity`, with `uuid4()` as `newId` and
   * `new Date().toISOString()` as `now`. A new rating is never banned.
   */
  function CreateLikeStatusCommentsEntity(
    dto: LikeStatusDto, user: CurrentUser, comment: FoundComment, newId: string, now: string): (e: LikeStatusCommentsEntity)
    ensures e.id == newId && e.addedAt == now
    ensures !e.isBanned && e.likeStatus == dto.likeStatus
    ensures e.ratedCommentUser == UserRef(user.userId, Some(user.login), Some(user.isBanned))
    ensures e.commentOwner.userId == comment.commentatorUserId
    ensures e.commentId == comment.id && e.blogId == comment.blogId && e.postId == comment.postId
  {
    LikeStatusCommentsEntity(
      newId,
      dto.likeStatus,
      now,
      false,
      comment.id,
      UserRef(user.userId, Some(user.login), Some(user.isBanned)),
      comment.blogId,
      comment.postId,
      UserRef(comment.commentatorUserId, None, None))
  }

  /** The `LikeStatusCommentsEntity` repository: `save` inserts, or updates the row with that id. */
  class LikeStatusCommentsStore {
    var rows: seq<LikeStatusCommentsEntity>

    ghost predicate Valid()
      reads this
    {
      Unique(rows, EntityId)
    }

    constructor ()
      ensures Valid() && rows == []
    {
      rows := [];
    }

    /**
     * `updateLikeStatusComment`: build the entity and save it. A failed save
     * (`saveError`) leaves the store as it was and is answered with
     * InternalServerError carrying the error's message.
     */
    method UpdateLikeStatusComment(
      dto: LikeStatusDto, user: CurrentUser, comment: FoundComment, newId: string, now: string,
      saveError: Option<string>) returns (r: Result<LikeStatusCommentsEntity>)
      requires Valid()
      modifies this
      ensures Valid()
      ensures saveError.Some? ==> r == Err(InternalServerError(saveError.value)) && rows == old(rows)
      ensures saveError.None? ==>
                r == Ok(CreateLikeStatusCommentsEntity(dto, user, comment, newId, now))
                && rows == Upsert(old(rows), r.value, EntityId)
    {
      var e := CreateLikeStatusCommentsEntity(dto, user, comment, newId, now);
      if saveError.Some? {
        return Err(InternalServerError(saveError.value));
      }
      UpsertSpec(rows, e, EntityId);
      rows := Upsert(rows, e, EntityId);
      return Ok(e);
    }
  }

  /** The ratings of one user on one comment. */
  function ByRater(userId: string, commentId: string): LikeStatusCommentsEntity -> bool
  {
    (e: LikeStatusCommentsEntity) => e.ratedCommentUser.userId == userId && e.commentId == commentId
  }

  /**
   * Saved under a fresh id, the entity is appended: every earlier rating
   * stays, so the user's ratings of that comment grow by one. Nothing on
   * this path replaces an earlier rating of the same user and comment.
   */
  lemma SaveFreshIdAppends(
    rows: seq<LikeStatusCommentsEntity>, dto: LikeStatusDto, user: CurrentUser, comment: FoundComment,
    newId: string, now: string)
    requires forall i :: 0 <= i < |rows| ==> rows[i].id != newId
    ensures Upsert(rows, CreateLikeStatusCommentsEntity(dto, user, comment, newId, now), EntityId)
            == rows + [CreateLikeStatusCommentsEntity(dto, user, comment, newId, now)]
    ensures Count(Upsert(rows, CreateLikeStatusCommentsEntity(dto, user, comment, newId, now), EntityId),
                  ByRater(user.userId, comment.id))
            == Count(rows, ByRater(user.userId, comment.id)) + 1
  {
    var e := CreateLikeStatusCommentsEntity(dto, user, comment, newId, now);
    FilterConcat(rows, [e], ByRater(user.userId, comment.id));
    assert Filter([e], ByRater(user.userId, comment.id)) == [e];
  }
}
