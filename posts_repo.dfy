/**
 * `PostsRepo`: the ORM repository of posts. It builds and inserts new
 * posts, lists posts a page at a time, and attaches to every listed post
 * its like summary (`extendedLikesInfo`). The key resolver, the uuid, the
 * clock and the like query's answer are parameters here.
 */
module PostsRepo {
  import opened Wrappers
  import opened Seqs
  import opened Paging

  /** The blog a post belongs to; the repository reads its id and name. */
  datatype BlogRef = BlogRef(id: string, name: string)

  datatype CurrentUser = CurrentUser(userId: string, login: string, isBanned: bool)

  datatype CreatePostDto = CreatePostDto(title: string, shortDescription: string, content: string)

  /** A `PostsEntity`; the owner is a user reference holding only `userId`. */
  datatype PostsEntity = PostsEntity(
    id: string,
    title: string,
    shortDescription: string,
    content: string,
    createdAt: string,
    dependencyIsBanned: bool,
    isBanned: bool,
    banDate: Option<string>,
    banReason: Option<string>,
    blog: BlogRef,
    postOwnerId: string)

  /** A row of the like query: which post, who rated it, how, and when. */
  datatype LikeStatusPost = LikeStatusPost(
    postId: string, ratedPostUserId: string, ratedPostUserLogin: string, likeStatus: LikeStatus, addedAt: string)

  datatype NewestLike = NewestLike(addedAt: string, userId: string, login: string)

  datatype ExtendedLikesInfo = ExtendedLikesInfo(
    likesCount: nat, dislikesCount: nat, myStatus: LikeStatus, newestLikes: seq<NewestLike>)

  /** A post as the API returns it (`ReturnPostsEntity`). */
  datatype ReturnPost = ReturnPost(
    id: string, title: string, shortDescription: string, content: string,
    blogId: string, blogName: string, createdAt: string, extendedLikesInfo: ExtendedLikesInfo)

  /** `{ posts, countPosts }` */
  datatype PostsAndCount = PostsAndCount(posts: seq<ReturnPost>, countPosts: nat)

  datatype BannedFlags = BannedFlags(
    commentatorInfoIsBanned: bool, dependencyIsBanned: bool, banInfoIsBanned: bool, isBanned: bool)

  datatype PagingParams = PagingParams(sortBy: string, direction: string, limit: int, offset: int)

  /** `getBannedFlags`: listings only ever look for posts that are not banned. */
  function GetBannedFlags(): (f: BannedFlags)
    ensures !f.commentatorInfoIsBanned && !f.dependencyIsBanned && !f.banInfoIsBanned && !f.isBanned
  {
    BannedFlags(false, false, false, false)
  }

  /** The columns a listing may be sorted by; any other key falls back to `createdAt`. */
  const SortableKeys: seq<string> :=
    ["title", "shortDescription", "content", "blogName", "dependencyIsBanned", "banInfoIsBanned", "banInfoBanDate", "banInfoBanReason"]

  const DefaultSortKey := "createdAt"

  /**
   * `getPagingParams`: the sort key as `KeyResolver.resolveKey` resolves
   * it, the direction as given, `limit` the page size and `offset` the
   * rows of the preceding pages.
   */
  function GetPagingParams(
    sortBy: string, sortDirection: string, pageNumber: int, pageSize: int,
    resolveKey: (string, seq<string>, string) -> string): (p: PagingParams)
    ensures p.sortBy == resolveKey(sortBy, SortableKeys, DefaultSortKey) && p.direction == sortDirection
    ensures p.limit == pageSize && p.offset == (pageNumber - 1) * pageSize
    ensures pageNumber >= 1 && pageSize >= 0 ==> p.offset >= 0
  {
    PagingParams(resolveKey(sortBy, SortableKeys, DefaultSortKey), sortDirection, pageSize, (pageNumber - 1) * pageSize)
  }

  /**
   * `creatPostsEntity`: a fresh post, not banned, with no ban date or
   * reason, owned by the current user; `newId` is `uuid4()` and `now` the
   * ISO time.
   */
  method CreatPostsEntity(blog: BlogRef, dto: CreatePostDto, user: CurrentUser, newId: string, now: string)
    returns (postEntity: PostsEntity)
    ensures postEntity.id == newId && postEntity.createdAt == now
    ensures postEntity.title == dto.title && postEntity.shortDescription == dto.shortDescription
            && postEntity.content == dto.content
    ensures !postEntity.dependencyIsBanned && !postEntity.isBanned
    ensures postEntity.banDate.None? && postEntity.banReason.None?
    ensures postEntity.blog == blog && postEntity.postOwnerId == user.userId
  {
    var ownerId := user.userId;
    postEntity := PostsEntity("", "", "", "", "", false, false, None, None, blog, ownerId);
    postEntity := postEntity.(id := newId);
    postEntity := postEntity.(title := dto.title);
    postEntity := postEntity.(shortDescription := dto.shortDescription);
    postEntity := postEntity.(content := dto.content);
    postEntity := postEntity.(createdAt := now);
    postEntity := postEntity.(dependencyIsBanned := false);
    postEntity := postEntity.(isBanned := false);
    postEntity := postEntity.(banDate := None);
    postEntity := postEntity.(banReason := None);
    postEntity := postEntity.(blog := blog);
  }

  /** `where: { dependencyIsBanned, isBanned }` with the flags of `getBannedFlags`. */
  function NotBanned(): PostsEntity -> bool
  {
    (p: PostsEntity) => p.dependencyIsBanned == GetBannedFlags().dependencyIsBanned && p.isBanned == GetBannedFlags().isBanned
  }

  /** The same, and `blog: { id: blogId }`. */
  function NotBannedInBlog(blogId: string): PostsEntity -> bool
  {
    (p: PostsEntity) => NotBanned()(p) && p.blog.id == blogId
  }

  function ForPost(postId: string): LikeStatusPost -> bool
  {
    (l: LikeStatusPost) => l.postId == postId
  }

  function HasStatus(s: LikeStatus): LikeStatusPost -> bool
  {
    (l: LikeStatusPost) => l.likeStatus == s
  }

  function ToNewestLike(l: LikeStatusPost): NewestLike
  {
    NewestLike(l.addedAt, l.ratedPostUserId, l.ratedPostUserLogin)
  }

  /** The like summary of one post, from the like rows of that post in query order. */
  function LikesInfo(postId: string, likes: seq<LikeStatusPost>, user: Option<CurrentUser>): ExtendedLikesInfo
  {
    var filtered := Filter(likes, ForPost(postId));
    var myStatus :=
      if user.Some? && |filtered| > 0 && user.value.userId == filtered[0].ratedPostUserId
      then filtered[0].likeStatus else NoneStatus;
    ExtendedLikesInfo(
      Count(filtered, HasStatus(Like)),
      Count(filtered, HasStatus(Dislike)),
      myStatus,
      seq(|filtered|, i requires 0 <= i < |filtered| => ToNewestLike(filtered[i])))
  }

  function ReturnOf(post: PostsEntity, likes: seq<LikeStatusPost>, user: Option<CurrentUser>): ReturnPost
  {
    ReturnPost(post.id, post.title, post.shortDescription, post.content, post.blog.id, post.blog.name,
               post.createdAt, LikesInfo(post.id, likes, user))
  }

  /**
   * `postsLikesAggregation`: one returned post per listed post, in the same
   * order, each with its own fields and the summary of its own likes.
   */
  function PostsLikesAggregation(posts: seq<PostsEntity>, likes: seq<LikeStatusPost>, user: Option<CurrentUser>): (r: seq<ReturnPost>)
    ensures |r| == |posts|
    ensures forall i :: 0 <= i < |posts| ==>
              r[i].id == posts[i].id && r[i].blogId == posts[i].blog.id && r[i].blogName == posts[i].blog.name
              && r[i].title == posts[i].title && r[i].createdAt == posts[i].createdAt
              && r[i].shortDescription == posts[i].shortDescription && r[i].content == posts[i].content
              && r[i].extendedLikesInfo == LikesInfo(posts[i].id, likes, user)
  {
    seq(|posts|, i requires 0 <= i < |posts| => ReturnOf(posts[i], likes, user))
  }

  /**
   * The summary counts the likes and the dislikes among the post's like
   * rows and lists every one of those rows as a newest like, so the two
   * counts together never exceed the newest likes.
   */
  lemma LikesInfoCounts(postId: string, likes: seq<LikeStatusPost>, user: Option<CurrentUser>)
    ensures var info := LikesInfo(postId, likes, user);
            info.likesCount + info.dislikesCount <= |info.newestLikes|
            && |info.newestLikes| == Count(likes, ForPost(postId))
            && info.likesCount == Count(likes, (l: LikeStatusPost) => l.postId == postId && l.likeStatus == Like)
  {
    var filtered := Filter(likes, ForPost(postId));
    CountDisjoint(filtered, HasStatus(Like), HasStatus(Dislike), (l: LikeStatusPost) => true);
    FilterKeepsAll(filtered, (l: LikeStatusPost) => true);
    FilterFilter(likes, ForPost(postId), HasStatus(Like), (l: LikeStatusPost) => l.postId == postId && l.likeStatus == Like);
  }

  /** Row `k` is the first like row of `postId` in query order (newest first). */
  predicate FirstLikeOf(likes: seq<LikeStatusPost>, postId: string, k: nat)
  {
    k < |likes| && likes[k].postId == postId && forall j :: 0 <= j < k ==> likes[j].postId != postId
  }

  /**
   * `myStatus` is NONE without a current user or without a like row of the
   * post. Otherwise it is decided by the post's first like row alone: that
   * row's status when the current user gave it, and NONE when someone else
   * did, even if the current user rated the post further down.
   */
  lemma MyStatusRule(postId: string, likes: seq<LikeStatusPost>, user: Option<CurrentUser>)
    ensures user.None? ==> LikesInfo(postId, likes, user).myStatus == NoneStatus
    ensures (forall k :: 0 <= k < |likes| ==> likes[k].postId != postId) ==> LikesInfo(postId, likes, user).myStatus == NoneStatus
    ensures forall k: nat :: FirstLikeOf(likes, postId, k) && user.Some? ==>
              LikesInfo(postId, likes, user).myStatus
              == if likes[k].ratedPostUserId == user.value.userId then likes[k].likeStatus else NoneStatus
  {
    CountZero(likes, ForPost(postId));
    forall k: nat | FirstLikeOf(likes, postId, k) {
      FilterFirst(likes, ForPost(postId), k);
    }
  }

  /** `item.post.id === postId` and rated by `userId`. */
  function RatedBy(postId: string, userId: string): LikeStatusPost -> bool
  {
    (l: LikeStatusPost) => l.postId == postId && l.ratedPostUserId == userId
  }

  /** The status the current user gave the post: their newest like row of it, or NONE. */
  function MyStatusIntended(postId: string, likes: seq<LikeStatusPost>, user: Option<CurrentUser>): LikeStatus
  {
    if user.None? then NoneStatus
    else
      var mine := Filter(likes, RatedBy(postId, user.value.userId));
      if |mine| > 0 then mine[0].likeStatus else NoneStatus
  }

  /**
   * The intended status is the current user's own newest rating of the
   * post, NONE when they never rated it, and it agrees with `myStatus` as
   * written whenever the post's first like row is the current user's.
   */
  lemma MyStatusIntendedShowsOwnRating(postId: string, likes: seq<LikeStatusPost>, user: Option<CurrentUser>)
    ensures user.Some? ==>
              forall k: nat ::
                (k < |likes| && RatedBy(postId, user.value.userId)(likes[k])
                 && (forall j :: 0 <= j < k ==> !RatedBy(postId, user.value.userId)(likes[j]))) ==>
                MyStatusIntended(postId, likes, user) == likes[k].likeStatus
    ensures user.Some? && (forall k :: 0 <= k < |likes| ==> !RatedBy(postId, user.value.userId)(likes[k])) ==>
              MyStatusIntended(postId, likes, user) == NoneStatus
    ensures forall k: nat :: FirstLikeOf(likes, postId, k) && user.Some? && likes[k].ratedPostUserId == user.value.userId ==>
              MyStatusIntended(postId, likes, user) == LikesInfo(postId, likes, user).myStatus
  {
    MyStatusRule(postId, likes, user);
    if user.Some? {
      var mine := RatedBy(postId, user.value.userId);
      CountZero(likes, mine);
      forall k: nat | k < |likes| && mine(likes[k]) && (forall j :: 0 <= j < k ==> !mine(likes[j])) {
        FilterFirst(likes, mine, k);
      }
    }
  }

  /**
   * As written, a user whose rating is not the post's newest sees NONE: u1
   * disliked post p1, u2 liked it later, and u1's `myStatus` is NONE
   * instead of DISLIKE.
   */
  lemma OwnRatingHidden()
    ensures var u1 := Some(CurrentUser("u1", "ann", false));
            var likes := [LikeStatusPost("p1", "u2", "bob", Like, "2024-02-01"),
                          LikeStatusPost("p1", "u1", "ann", Dislike, "2024-01-01")];
            LikesInfo("p1", likes, u1).myStatus == NoneStatus && MyStatusIntended("p1", likes, u1) == Dislike
  {
    var u1 := Some(CurrentUser("u1", "ann", false));
    var likes := [LikeStatusPost("p1", "u2", "bob", Like, "2024-02-01"),
                  LikeStatusPost("p1", "u1", "ann", Dislike, "2024-01-01")];
    assert FirstLikeOf(likes, "p1", 0);
    MyStatusRule("p1", likes, u1);
    MyStatusIntendedShowsOwnRating("p1", likes, u1);
    assert RatedBy("p1", "u1")(likes[1]) && !RatedBy("p1", "u1")(likes[0]);
  }

  /** The posts tables the ORM repository reads and writes. */
  class PostsStore {
    var rows: seq<PostsEntity>

    constructor ()
      ensures rows == []
    {
      rows := [];
    }

    /**
     * `createPosts`: build the entity, insert it and return its listed
     * columns with a fresh `ExtendedLikesInfo` (`emptyLikesInfo`). A failed
     * insert leaves the table as it was and is InternalServerError.
     */
    method CreatePosts(
      blog: BlogRef, dto: CreatePostDto, user: CurrentUser, newId: string, now: string,
      emptyLikesInfo: ExtendedLikesInfo, insertFails: bool) returns (r: Result<ReturnPost>)
      modifies this
      ensures insertFails ==> r == Err(InternalServerError(CreatePostFailed)) && rows == old(rows)
      ensures !insertFails ==>
                |rows| == |old(rows)| + 1 && rows[..|old(rows)|] == old(rows)
                && r == Ok(ReturnPost(newId, dto.title, dto.shortDescription, dto.content, blog.id, blog.name, now, emptyLikesInfo))
                && NotBanned()(rows[|old(rows)|]) && rows[|old(rows)|].postOwnerId == user.userId
    ensures !insertFails ==>
              rows == old(rows) + [PostsEntity(newId, dto.title, dto.shortDescription, dto.content, now,
                                               false, false, None, None, blog, user.userId)]
    {
      var postEntity := CreatPostsEntity(blog, dto, user, newId, now);
      if insertFails {
        return Err(InternalServerError(CreatePostFailed));
      }
      rows := rows + [postEntity];
      r := Ok(ReturnPost(postEntity.id, postEntity.title, postEntity.shortDescription, postEntity.content,
                         postEntity.blog.id, postEntity.blog.name, postEntity.createdAt, emptyLikesInfo));
    }

    /**
     * `getPostsWithPagination`: page `pageNumber` of the posts that are not
     * banned, in the requested order (`ordered`), with their like summaries,
     * and the number of all such posts. An empty page answers
     * `{ posts: [], countPosts: 0 }` whatever the count.
     */
    function GetPostsWithPagination(
      ordered: seq<PostsEntity>, likes: seq<LikeStatusPost>, user: Option<CurrentUser>,
      pageNumber: nat, pageSize: nat): (r: PostsAndCount)
      reads this
      requires multiset(ordered) == multiset(rows)
      requires pageNumber >= 1
      ensures r.posts == [] ==> r.countPosts == 0
      ensures r.posts != [] ==> r.countPosts == Count(rows, NotBanned())
      ensures r.posts == PostsLikesAggregation(PageWindow(Filter(ordered, NotBanned()), pageSize, pageNumber), likes, user)
      ensures |r.posts| <= pageSize
    {
      var page := PageWindow(Filter(ordered, NotBanned()), pageSize, pageNumber);
      if |page| == 0 then PostsAndCount([], 0)
      else
        FilterPermutation(ordered, rows, NotBanned());
        PostsAndCount(PostsLikesAggregation(page, likes, user), Count(ordered, NotBanned()))
    }

    /** `getPostsInBlogWithPagination`: the same, restricted to one blog. */
    function GetPostsInBlogWithPagination(
      blogId: string, ordered: seq<PostsEntity>, likes: seq<LikeStatusPost>, user: Option<CurrentUser>,
      pageNumber: nat, pageSize: nat): (r: PostsAndCount)
      reads this
      requires multiset(ordered) == multiset(rows)
      requires pageNumber >= 1
      ensures r.posts == [] ==> r.countPosts == 0
      ensures r.posts != [] ==> r.countPosts == Count(rows, NotBannedInBlog(blogId))
      ensures r.posts == PostsLikesAggregation(PageWindow(Filter(ordered, NotBannedInBlog(blogId)), pageSize, pageNumber), likes, user)
      ensures forall i :: 0 <= i < |r.posts| ==> r.posts[i].blogId == blogId
    {
      var page := PageWindow(Filter(ordered, NotBannedInBlog(blogId)), pageSize, pageNumber);
      PageOfBlog(ordered, blogId, pageSize, pageNumber);
      if |page| == 0 then PostsAndCount([], 0)
      else
        FilterPermutation(ordered, rows, NotBannedInBlog(blogId));
        PostsAndCount(PostsLikesAggregation(page, likes, user), Count(ordered, NotBannedInBlog(blogId)))
    }
  }

  /** Every post on a page of one blog's listing belongs to that blog. */
  lemma PageOfBlog(ordered: seq<PostsEntity>, blogId: string, pageSize: nat, pageNumber: nat)
    requires pageNumber >= 1
    ensures forall i :: 0 <= i < |PageWindow(Filter(ordered, NotBannedInBlog(blogId)), pageSize, pageNumber)| ==>
              PageWindow(Filter(ordered, NotBannedInBlog(blogId)), pageSize, pageNumber)[i].blog.id == blogId
  {
    var filtered := Filter(ordered, NotBannedInBlog(blogId));
    var offset := (pageNumber - 1) * pageSize;
    assert forall j :: 0 <= j < |filtered| ==> filtered[j].blog.id == blogId;
    var page := Page(filtered, offset, pageSize);
    assert page == PageWindow(filtered, pageSize, pageNumber);
    forall i | 0 <= i < |page| ensures page[i].blog.id == blogId {
      assert page[i] == filtered[offset + i];
    }
  }

  const CreatePostFailed := "An error occurred while creating a new post."

  /** A count does not depend on the order of the rows. */
  lemma FilterPermutation(a: seq<PostsEntity>, b: seq<PostsEntity>, p: PostsEntity -> bool)
    requires multiset(a) == multiset(b)
    ensures Count(a, p) == Count(b, p)
  {
    FilterMultisetEq(a, b, p);
    assert |multiset(Filter(a, p))| == |Filter(a, p)|;
    assert |multiset(Filter(b, p))| == |Filter(b, p)|;
  }

  lemma FilterMultisetEq(a: seq<PostsEntity>, b: seq<PostsEntity>, p: PostsEntity -> bool)
    requires multiset(a) == multiset(b)
    ensures multiset(Filter(a, p)) == multiset(Filter(b, p))
  {
    forall x ensures multiset(Filter(a, p))[x] == multiset(Filter(b, p))[x] {
      FilterMultiset(a, p, x);
      FilterMultiset(b, p, x);
    }
  }
}
