/**
 * `GetCommentsByPostIdUseCase`: the comments of a post, with their like
 * data, a page at a time. The post lookup and the comment query
 * (`PostsRepo.getPostByIdWithoutLikes`, `CommentsRepo.getCommentsWithLikesByPostId`)
 * are not part of this model; they are parameters here.
 */
module GetCommentsByPostId {
  import opened Wrappers
  import opened Paging

  /** `{ comments, countComments }` as the comment query returns it. */
  datatype CommentsAndCount<C> = CommentsAndCount(comments: seq<C>, countComments: nat)

  function PostNotFound(postId: string): string
  {
    "Post with ID " + postId + " not found"
  }

  /**
   * `execute`: NotFound naming the post when it is missing. A zero count
   * gives the empty envelope (`pageNumber` pages, `pageNumber - 1`
   * comments, no items, whatever the query returned). Otherwise the
   * comments are passed through unchanged with their count and the least
   * number of pages that holds them.
   */
  function Execute<P, C>(
    postId: string, pageNumber: int, pageSize: nat,
    getPostByIdWithoutLikes: string -> Option<P>,
    getCommentsWithLikesByPostId: string -> CommentsAndCount<C>): (r: Result<Paginated<C>>)
    requires pageSize > 0
    ensures getPostByIdWithoutLikes(postId).None? <==> r == Err(NotFound(PostNotFound(postId)))
    ensures getPostByIdWithoutLikes(postId).Some? ==> r.Ok? && r.value.page == pageNumber && r.value.pageSize == pageSize
    ensures getPostByIdWithoutLikes(postId).Some? && getCommentsWithLikesByPostId(postId).countComments == 0 ==>
              r == Ok(Paginated(pageNumber, pageNumber, pageSize, pageNumber - 1, []))
    ensures getPostByIdWithoutLikes(postId).Some? && getCommentsWithLikesByPostId(postId).countComments > 0 ==>
              var found := getCommentsWithLikesByPostId(postId);
              r.Ok? && r.value.items == found.comments && r.value.totalCount == found.countComments
              && (r.value.pagesCount - 1) * pageSize < found.countComments <= r.value.pagesCount * pageSize
  {
    if getPostByIdWithoutLikes(postId).None? then Err(NotFound(PostNotFound(postId)))
    else
      var found := getCommentsWithLikesByPostId(postId);
      if found.countComments == 0 then Ok(EmptyCommentsEnvelope(pageNumber, pageSize))
      else Ok(Paginated(CeilDiv(found.countComments, pageSize), pageNumber, pageSize, found.countComments, found.comments))
  }
}
