/**
 * `GetPostsUseCase`: the envelope around one page of posts read through
 * the ORM. The query (`PostsRepo.getPostsWithPaginationAndCount`) is not
 * part of this model; its answer is the input here.
 */
module GetPosts {
  import opened Paging

  /**
   * `execute`: an empty page reports zero pages and zero posts; otherwise
   * the posts unchanged, their total, and as page count the least `n`
   * with `n * pageSize >= totalCount`.
   */
  function Execute<T>(posts: seq<T>, countPosts: nat, pageNumber: int, pageSize: nat): (r: Paginated<T>)
    requires pageSize > 0
    ensures r.page == pageNumber && r.pageSize == pageSize && r.items == posts
    ensures posts == [] ==> r.pagesCount == 0 && r.totalCount == 0
    ensures posts != [] ==>
              r.totalCount == countPosts && r.pagesCount >= 0
              && countPosts <= r.pagesCount * pageSize
              && forall n: nat :: countPosts <= n * pageSize ==> r.pagesCount <= n
  {
    var r := ListingEnvelope(posts, countPosts, pageNumber, pageSize);
    assert posts != [] ==> forall n: nat :: countPosts <= n * pageSize ==> r.pagesCount <= n by {
      if posts != [] {
        forall n: nat | countPosts <= n * pageSize ensures r.pagesCount <= n {
          CeilDivLeast(countPosts, pageSize, n);
        }
      }
    }
    r
  }
}
