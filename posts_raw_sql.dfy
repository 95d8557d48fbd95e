/**
 * The `Posts` table and the statements `PostsRawSqlRepository` runs
 * against it. Listings show only posts whose owner is not banned and that
 * are not banned themselves. `ORDER BY "<sortBy>" <direction>` sorts on a
 * column chosen at run time; the listings therefore take the table in the
 * order the database returns it (`ordered`, a permutation of the rows).
 */
module PostsRawSql {
  import opened Wrappers
  import opened Seqs
  import opened Paging

  datatype PostRow = PostRow(
    id: string,
    title: string,
    shortDescription: string,
    content: string,
    blogId: string,
    blogName: string,
    createdAt: string,
    postOwnerId: string,
    postOwnerLogin: string,
    postOwnerIsBanned: bool,
    banInfoBanStatus: bool,
    banInfoBanDate: Option<string>,
    banInfoBanReason: Option<string>)

  /** The columns `createPost` returns. */
  datatype PostView = PostView(
    id: string, title: string, shortDescription: string, content: string,
    blogId: string, blogName: string, createdAt: string)

  datatype UpdatePostDto = UpdatePostDto(title: string, shortDescription: string, content: string)

  /** A `sortDirection` query value: JavaScript's `includes` tells numbers from strings. */
  datatype SortDirectionValue = Num(n: int) | Str(s: string)

  datatype Direction = Asc | Desc

  /** The values `[-1, 'ascending', 'ASCENDING', 'asc', 'ASC']` that select ascending order. */
  const AscendingValues: seq<SortDirectionValue> :=
    [Num(-1), Str("ascending"), Str("ASCENDING"), Str("asc"), Str("ASC")]

  /** The direction normalisation; anything else, including a missing value, sorts descending. */
  function SortDirection(v: Option<SortDirectionValue>): Direction
  {
    if v.Some? && v.value in AscendingValues then Asc else Desc
  }

  /** Ascending exactly for the five listed values, compared without coercion. */
  lemma SortDirectionCases(v: Option<SortDirectionValue>)
    ensures SortDirection(v) == Asc <==>
              v == Some(Num(-1)) || v == Some(Str("ascending")) || v == Some(Str("ASCENDING"))
              || v == Some(Str("asc")) || v == Some(Str("ASC"))
    ensures SortDirection(Some(Str("-1"))) == Desc && SortDirection(Some(Str("Asc"))) == Desc
  {
    assert Str("-1") !in AscendingValues;
    assert Str("Asc") !in AscendingValues;
  }

  function PostId(p: PostRow): string
  {
    p.id
  }

  /** `"postOwnerIsBanned" = false AND "banInfoBanStatus" = false` */
  function Visible(): PostRow -> bool
  {
    (p: PostRow) => !p.postOwnerIsBanned && !p.banInfoBanStatus
  }

  /** `"blogId" = $5 AND "postOwnerIsBanned" = false AND "banInfoBanStatus" = false` */
  function VisibleInBlog(blogId: string): PostRow -> bool
  {
    (p: PostRow) => p.blogId == blogId && !p.postOwnerIsBanned && !p.banInfoBanStatus
  }

  /** `"id" = $1 AND "postOwnerIsBanned" = false AND "banInfoBanStatus" = false` */
  function VisibleWithId(postId: string): PostRow -> bool
  {
    (p: PostRow) => p.id == postId && !p.postOwnerIsBanned && !p.banInfoBanStatus
  }

  /** `"id" = $1` */
  function WithId(postId: string): PostRow -> bool
  {
    (p: PostRow) => p.id == postId
  }

  /** `SET "title" = $2, "shortDescription" = $3, "content" = $4` */
  function SetContent(dto: UpdatePostDto): PostRow -> PostRow
  {
    (p: PostRow) => p.(title := dto.title, shortDescription := dto.shortDescription, content := dto.content)
  }

  /**
   * `LIMIT pageSize OFFSET pageNumber - 1` as the repository writes it; the
   * database rejects a negative LIMIT or OFFSET.
   */
  function RawWindow(s: seq<PostRow>, pageSize: int, pageNumber: int): (r: Option<seq<PostRow>>)
    ensures r.Some? <==> pageSize >= 0 && pageNumber >= 1
    ensures r.Some? ==> r.value == Page(s, pageNumber - 1, pageSize)
  {
    if pageSize < 0 || pageNumber < 1 then None else Some(Page(s, pageNumber - 1, pageSize))
  }

  /** Postgres's messages for a negative LIMIT and a negative OFFSET. */
  const NegativeLimit := "LIMIT must not be negative"
  const NegativeOffset := "OFFSET must not be negative"

  class PostsTable {
    var rows: seq<PostRow>

    /** `"id"` is the table's primary key. */
    ghost predicate Valid()
      reads this
    {
      Unique(rows, PostId)
    }

    constructor ()
      ensures Valid() && rows == []
    {
      rows := [];
    }

    /**
     * `openFindPosts`: page `pageNumber` of the visible posts in the
     * requested order, with the window as written. A negative LIMIT or
     * OFFSET, or any other failure (`dbError`), is InternalServerError.
     */
    function OpenFindPosts(ordered: seq<PostRow>, pageSize: int, pageNumber: int, dbError: Option<string>): (r: Result<seq<PostRow>>)
      reads this
      requires multiset(ordered) == multiset(rows)
      ensures r.Ok? <==> dbError.None? && pageSize >= 0 && pageNumber >= 1
      ensures r.Ok? ==> r.value == Page(Filter(ordered, Visible()), pageNumber - 1, pageSize)
      ensures r.Ok? ==> |r.value| <= pageSize && forall i :: 0 <= i < |r.value| ==>
                r.value[i] in rows && !r.value[i].postOwnerIsBanned && !r.value[i].banInfoBanStatus
    {
      if dbError.Some? then Err(InternalServerError(dbError.value))
      else if pageSize < 0 then Err(InternalServerError(NegativeLimit))
      else if pageNumber < 1 then Err(InternalServerError(NegativeOffset))
      else
        var page := Page(Filter(ordered, Visible()), pageNumber - 1, pageSize);
        assert forall p :: p in ordered ==> p in rows by {
          forall p | p in ordered ensures p in rows {
            assert multiset(ordered)[p] > 0;
          }
        }
        Ok(page)
    }

    /**
     * `findPostByPostId`: the first visible row with that id, `null` when
     * there is none (`post[0]` of an empty result) and on any failure.
     */
    function FindPostByPostId(postId: string, dbError: Option<string>): (r: Option<PostRow>)
      reads this
      ensures r.Some? ==> dbError.None? && r.value in rows && r.value.id == postId
                          && !r.value.postOwnerIsBanned && !r.value.banInfoBanStatus
      ensures dbError.None? && r.None? ==>
                forall p :: p in rows && p.id == postId ==> p.postOwnerIsBanned || p.banInfoBanStatus
    {
      if dbError.Some? then None
      else
        var found := Filter(rows, VisibleWithId(postId));
        CountZero(rows, VisibleWithId(postId));
        if |found| == 0 then None else Some(found[0])
    }

    /**
     * `findPostsByBlogId`: like `openFindPosts` restricted to the blog, but
     * every failure, a negative LIMIT or OFFSET included, yields `null`.
     */
    function FindPostsByBlogId(blogId: string, ordered: seq<PostRow>, pageSize: int, pageNumber: int, dbError: Option<string>): (r: Option<seq<PostRow>>)
      reads this
      requires multiset(ordered) == multiset(rows)
      ensures r.Some? <==> dbError.None? && pageSize >= 0 && pageNumber >= 1
      ensures r.Some? ==> r.value == Page(Filter(ordered, VisibleInBlog(blogId)), pageNumber - 1, pageSize)
      ensures r.Some? ==> forall i :: 0 <= i < |r.value| ==> r.value[i].blogId == blogId
    {
      if dbError.Some? then None
      else RawWindow(Filter(ordered, VisibleInBlog(blogId)), pageSize, pageNumber)
    }

    /**
     * `createPost`: insert the row and return its first seven columns. An
     * existing id violates the primary key; that and any other failure
     * (`dbError`) insert nothing and are answered with InternalServerError.
     */
    method CreatePost(p: PostRow, dbError: Option<string>) returns (r: Result<PostView>)
      requires Valid()
      modifies this
      ensures Valid()
      ensures r.Ok? <==> dbError.None? && forall q :: q in old(rows) ==> q.id != p.id
      ensures r.Ok? ==> rows == old(rows) + [p]
                        && r.value == PostView(p.id, p.title, p.shortDescription, p.content, p.blogId, p.blogName, p.createdAt)
      ensures r.Err? ==> rows == old(rows) && r.error.InternalServerError?
    {
      if dbError.Some? {
        return Err(InternalServerError(dbError.value));
      }
      if exists i :: 0 <= i < |rows| && rows[i].id == p.id {
        return Err(InternalServerError(DuplicateKey));
      }
      rows := rows + [p];
      return Ok(PostView(p.id, p.title, p.shortDescription, p.content, p.blogId, p.blogName, p.createdAt));
    }

    /**
     * `updatePostByPostId`: overwrite title, shortDescription and content of
     * the row with that id; true iff exactly one row was affected.
     */
    method UpdatePostByPostId(postId: string, dto: UpdatePostDto, dbError: Option<string>) returns (r: Result<bool>)
      requires Valid()
      modifies this
      ensures Valid()
      ensures dbError.Some? ==> r == Err(InternalServerError(dbError.value)) && rows == old(rows)
      ensures dbError.None? ==>
                rows == SetWhere(old(rows), WithId(postId), SetContent(dto))
                && r == Ok(Count(old(rows), WithId(postId)) == 1)
    {
      if dbError.Some? {
        return Err(InternalServerError(dbError.value));
      }
      var affected := Count(rows, WithId(postId));
      SetWhereKeepsUnique(rows, WithId(postId), SetContent(dto), PostId);
      rows := SetWhere(rows, WithId(postId), SetContent(dto));
      return Ok(affected == 1);
    }

    /** `totalCountPosts`: the number of visible posts. */
    function TotalCountPosts(dbError: Option<string>): (r: Result<nat>)
      reads this
      ensures r.Ok? <==> dbError.None?
      ensures r.Ok? ==> r.value == |Filter(rows, Visible())|
    {
      if dbError.Some? then Err(InternalServerError(dbError.value)) else Ok(Count(rows, Visible()))
    }

    /** `totalCountPostsByBlogId`: the number of visible posts of the blog. */
    function TotalCountPostsByBlogId(blogId: string, dbError: Option<string>): (r: Result<nat>)
      reads this
      ensures r.Ok? <==> dbError.None?
      ensures r.Ok? ==> r.value == |Filter(rows, VisibleInBlog(blogId))|
    {
      if dbError.Some? then Err(InternalServerError(dbError.value)) else Ok(Count(rows, VisibleInBlog(blogId)))
    }

    /**
     * `removePostByPostId`: delete the row with that id; true iff exactly one
     * row was removed. A failure deletes nothing and is answered with NotFound.
     */
    method RemovePostByPostId(postId: string, dbError: Option<string>) returns (r: Result<bool>)
      requires Valid()
      modifies this
      ensures Valid()
      ensures dbError.Some? ==> r == Err(NotFound(dbError.value)) && rows == old(rows)
      ensures dbError.None? ==>
                rows == Filter(old(rows), Not(WithId(postId)))
                && r == Ok(Count(old(rows), WithId(postId)) == 1)
    {
      if dbError.Some? {
        return Err(NotFound(dbError.value));
      }
      var removed := Count(rows, WithId(postId));
      FilterKeepsUnique(rows, Not(WithId(postId)), PostId);
      rows := Filter(rows, Not(WithId(postId)));
      return Ok(removed == 1);
    }
  }

  /** Postgres's message for a primary-key violation. */
  const DuplicateKey := "duplicate key value violates unique constraint"

  // ---------------------------------------------------------------------
  // Properties across statements
  // ---------------------------------------------------------------------

  /** With the primary key, updating or removing by id succeeds exactly when the id exists. */
  lemma AffectedOneIffPresent(rows: seq<PostRow>, postId: string)
    requires Unique(rows, PostId)
    ensures Count(rows, WithId(postId)) == 1 <==> exists i :: 0 <= i < |rows| && rows[i].id == postId
  {
    UniqueAtMostOne(rows, PostId, postId);
    FilterSamePredicate(rows, WithId(postId), SameKey(PostId, postId));
    CountZero(rows, WithId(postId));
    if exists i :: 0 <= i < |rows| && rows[i].id == postId {
      var i :| 0 <= i < |rows| && rows[i].id == postId;
      assert rows[i] in rows && WithId(postId)(rows[i]);
    }
  }

  /** The update touches only the text fields of that post; every other row is as it was. */
  lemma UpdateChangesOnlyText(rows: seq<PostRow>, postId: string, dto: UpdatePostDto, i: int)
    requires 0 <= i < |rows|
    ensures var after := SetWhere(rows, WithId(postId), SetContent(dto));
            (rows[i].id != postId ==> after[i] == rows[i])
            && (rows[i].id == postId ==>
                  after[i] == rows[i].(title := dto.title, shortDescription := dto.shortDescription, content := dto.content))
  {
  }

  /** The per-blog count never exceeds the overall count. */
  lemma BlogCountBounded(rows: seq<PostRow>, blogId: string)
    ensures Count(rows, VisibleInBlog(blogId)) <= Count(rows, Visible())
  {
    CountDisjoint(rows, VisibleInBlog(blogId), (p: PostRow) => false, Visible());
  }

  /** Removing a post removes it from the visible count, if it was counted there. */
  lemma RemoveLowersCount(rows: seq<PostRow>, postId: string)
    requires Unique(rows, PostId)
    ensures Count(Filter(rows, Not(WithId(postId))), Visible())
            == Count(rows, Visible()) - Count(rows, VisibleWithId(postId))
  {
    CountPartition(rows, Visible(), WithId(postId));
    FilterFilter(rows, WithId(postId), Visible(), VisibleWithId(postId));
  }

  // ---------------------------------------------------------------------
  // The page window as written and as intended
  // ---------------------------------------------------------------------

  /**
   * The raw listings skip `pageNumber - 1` rows, not `pageNumber - 1` pages:
   * with pages of two or more rows, page 2 starts with the second row of
   * page 1.
   */
  lemma RawWindowOverlaps(s: seq<PostRow>, pageSize: nat)
    requires pageSize >= 2 && |s| >= pageSize + 1
    ensures RawWindow(s, pageSize, 2).Some? && RawWindow(s, pageSize, 1).Some?
    ensures RawWindow(s, pageSize, 2).value[0] == RawWindow(s, pageSize, 1).value[1]
    ensures PageWindow(s, pageSize, 2)[0] == s[pageSize]
  {
  }

  /** The two windows agree on the first page, and on every page when a page is one row. */
  lemma RawWindowAgrees(s: seq<PostRow>, pageSize: nat, pageNumber: nat)
    requires pageNumber >= 1 && (pageNumber == 1 || pageSize == 1)
    ensures RawWindow(s, pageSize, pageNumber) == Some(PageWindow(s, pageSize, pageNumber))
  {
  }
}
