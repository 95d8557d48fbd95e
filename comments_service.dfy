/**
 * `CommentsService`: a single comment, and the comments of a post a page
 * at a time. Reading comments and posts, filling in like data
 * (`FillingCommentsDataCommand`) and counting are done by collaborators
 * that are not part of this model; they are parameters here.
 */
module CommentsService {
  import opened Wrappers
  import opened Paging

  datatype CurrentUser = CurrentUser(userId: string, login: string, isBanned: bool)

  /** The fields of a stored comment the service reads. */
  datatype CommentRow = CommentRow(id: string, commentatorInfoIsBanned: bool)

  /** The post `openFindPostByPostId` finds. */
  datatype FoundPost = FoundPost(id: string, postOwnerId: string)

  datatype CommentatorInfo = CommentatorInfo(userId: string, userLogin: string)
  datatype LikesInfo = LikesInfo(likesCount: nat, dislikesCount: nat, myStatus: LikeStatus)
  datatype PostInfo = PostInfo(id: string, title: string, blogId: string, blogName: string)

  /** A comment with its like data and the post it belongs to. */
  datatype FilledComment = FilledComment(
    id: string, content: string, createdAt: string,
    commentatorInfo: CommentatorInfo, likesInfo: LikesInfo, postInfo: PostInfo)

  /** A comment as the API returns it: the filled comment without `postInfo`. */
  datatype CommentView = CommentView(
    id: string, content: string, createdAt: string, commentatorInfo: CommentatorInfo, likesInfo: LikesInfo)

  function WithoutPostInfo(c: FilledComment): CommentView
  {
    CommentView(c.id, c.content, c.createdAt, c.commentatorInfo, c.likesInfo)
  }

  /** The message of a `NotFoundException` thrown without one. */
  const NotFoundMessage := "Not Found"

  /** Reading `filledComments[0]` of an empty answer throws; Nest answers 500. */
  const InternalErrorMessage := "Internal server error"

  /**
   * `findCommentById`: NotFound for a missing comment or one whose author
   * is banned; otherwise the first filled comment without its post info,
   * and a server error when the filling answers nothing.
   */
  function FindCommentById(
    commentId: string, user: Option<CurrentUser>,
    findCommentByCommentId: string -> Option<CommentRow>,
    fillingCommentsData: (seq<CommentRow>, Option<CurrentUser>) -> seq<FilledComment>): (r: Result<CommentView>)
    ensures r == Err(NotFound(NotFoundMessage)) <==>
              findCommentByCommentId(commentId).None? || findCommentByCommentId(commentId).value.commentatorInfoIsBanned
    ensures findCommentByCommentId(commentId).Some? && !findCommentByCommentId(commentId).value.commentatorInfoIsBanned ==>
              var filled := fillingCommentsData([findCommentByCommentId(commentId).value], user);
              (|filled| > 0 ==> r == Ok(WithoutPostInfo(filled[0])))
              && (|filled| == 0 ==> r == Err(InternalServerError(InternalErrorMessage)))
  {
    var comment := findCommentByCommentId(commentId);
    if comment.None? || comment.value.commentatorInfoIsBanned then Err(NotFound(NotFoundMessage))
    else
      var filled := fillingCommentsData([comment.value], user);
      if |filled| == 0 then Err(InternalServerError(InternalErrorMessage))
      else Ok(WithoutPostInfo(filled[0]))
  }

  /**
   * `findCommentsByPostId`: NotFound for a missing post. With no comments
   * on the page, the envelope claims `pageNumber` pages and
   * `pageNumber - 1` comments. Otherwise the items are the filled comments
   * in order without post info, the total is what `totalCount` reports for
   * the post owner with both ban flags false, and the page count is the
   * least number of pages of `pageSize` that holds that total.
   */
  function FindCommentsByPostId(
    postId: string, pageNumber: int, pageSize: nat, user: Option<CurrentUser>,
    openFindPostByPostId: string -> Option<FoundPost>,
    findCommentsByPostId: string -> seq<CommentRow>,
    fillingCommentsData: (seq<CommentRow>, Option<CurrentUser>) -> seq<FilledComment>,
    totalCount: (string, bool, bool) -> nat): (r: Result<Paginated<CommentView>>)
    requires pageSize > 0
    ensures openFindPostByPostId(postId).None? <==> r == Err(NotFound(NotFoundMessage))
    ensures openFindPostByPostId(postId).Some? && findCommentsByPostId(postId) == [] ==>
              r == Ok(Paginated(pageNumber, pageNumber, pageSize, pageNumber - 1, []))
    ensures openFindPostByPostId(postId).Some? && findCommentsByPostId(postId) != [] ==>
              var filled := fillingCommentsData(findCommentsByPostId(postId), user);
              var total := totalCount(openFindPostByPostId(postId).value.postOwnerId, false, false);
              r.Ok? && r.value.page == pageNumber && r.value.pageSize == pageSize
              && r.value.totalCount == total
              && total <= r.value.pagesCount * pageSize
              && (forall n: nat :: total <= n * pageSize ==> r.value.pagesCount <= n)
              && |r.value.items| == |filled|
              && forall i :: 0 <= i < |filled| ==> r.value.items[i] == WithoutPostInfo(filled[i])
  {
    var post := openFindPostByPostId(postId);
    if post.None? then Err(NotFound(NotFoundMessage))
    else
      var comments := findCommentsByPostId(postId);
      if |comments| == 0 then Ok(EmptyCommentsEnvelope(pageNumber, pageSize))
      else
        var filled := fillingCommentsData(comments, user);
        var total := totalCount(post.value.postOwnerId, false, false);
        var items := seq(|filled|, i requires 0 <= i < |filled| => WithoutPostInfo(filled[i]));
        assert forall n: nat :: total <= n * pageSize ==> CeilDiv(total, pageSize) <= n by {
          forall n: nat | total <= n * pageSize ensures CeilDiv(total, pageSize) <= n {
            CeilDivLeast(total, pageSize, n);
          }
        }
        Ok(Paginated(CeilDiv(total, pageSize), pageNumber, pageSize, total, items))
  }
}
