/**
 * `FindPostsUseCase`: the envelope around one page of posts. The query
 * (`PostsRawSqlRepository.findPostsAndTotalCountPosts`) is not part of
 * this model; its answer is the input here.
 */
module FindPosts {
  import opened Paging

  /** `{ posts, countPosts }` */
  datatype PostsAndCount<T> = PostsAndCount(posts: seq<T>, countPosts: nat)

  /**
   * `execute`: an empty page reports zero pages and zero posts; otherwise
   * the posts unchanged, their total, and the page count, which is the
   * least number of pages of `pageSize` that holds the total.
   */
  function Execute<T>(postsAndCount: PostsAndCount<T>, pageNumber: int, pageSize: nat): (r: Paginated<T>)
    requires pageSize > 0
    ensures r.page == pageNumber && r.pageSize == pageSize && r.items == postsAndCount.posts
    ensures postsAndCount.posts == [] ==> r.pagesCount == 0 && r.totalCount == 0
    ensures postsAndCount.posts != [] ==>
              r.totalCount == postsAndCount.countPosts
              && (r.pagesCount > 0 ==> (r.pagesCount - 1) * pageSize < r.totalCount)
              && r.totalCount <= r.pagesCount * pageSize
              && forall n: nat :: r.totalCount <= n * pageSize ==> r.pagesCount <= n
  {
    var r := ListingEnvelope(postsAndCount.posts, postsAndCount.countPosts, pageNumber, pageSize);
    assert postsAndCount.posts != [] ==> forall n: nat :: r.totalCount <= n * pageSize ==> r.pagesCount <= n by {
      if postsAndCount.posts != [] {
        forall n: nat | r.totalCount <= n * pageSize ensures r.pagesCount <= n {
          CeilDivLeast(r.totalCount, pageSize, n);
        }
      }
    }
    r
  }

  /** With no posts counted, a non-empty page still reports zero pages: `Math.ceil(0 / pageSize)`. */
  lemma NoCountNoPages<T>(posts: seq<T>, pageNumber: int, pageSize: nat)
    requires pageSize > 0
    ensures Execute(PostsAndCount(posts, 0), pageNumber, pageSize).pagesCount == 0
  {
  }
}
