/**
 * `CreateBloggerBlogUseCase`: build the new blog from the request and the
 * current user, ask the CASL ability built for that user whether it may
 * CREATE, insert the blog, and answer with six of the stored blog's fields.
 * The uuid, the clock, the ability and the row `createBlogs` answers with
 * are parameters; the repository records the blogs it is asked to insert.
 */
module CreateBloggerBlog {
  import opened Wrappers
  import opened BlogEntity

  /** The request body (`CreateBloggerBlogsDto`). */
  datatype CreateBloggerBlogsDto = CreateBloggerBlogsDto(name: string, description: string, websiteUrl: string)

  /** The authenticated user (`CurrentUserDto`), as far as the builder reads it. */
  datatype CurrentUser = CurrentUser(id: string, login: string, isBanned: bool)

  /** The answer: `{ id, name, description, websiteUrl, createdAt, isMembership }`. */
  datatype BlogResponse = BlogResponse(
    id: string, name: string, description: string, websiteUrl: string, createdAt: string, isMembership: bool)

  /**
   * `createBlogsEntity`, with `uuid4()` as `newId` and
   * `new Date().toISOString()` as `now`: the request's fields, the owner's
   * id, login and ban status, no membership and no ban.
   */
  function CreateBlogsEntity(dto: CreateBloggerBlogsDto, currentUser: CurrentUser, newId: string, now: string): (b: Blog)
    ensures b.name == dto.name && b.description == dto.description && b.websiteUrl == dto.websiteUrl
    ensures b.id == newId && b.createdAt == now
    ensures b.blogOwnerId == currentUser.id && b.blogOwnerLogin == currentUser.login
    ensures b.blogOwnerBanStatus == currentUser.isBanned
    ensures !b.isMembership && !b.banInfoBanStatus
    ensures b.banInfoBanDate.None? && b.banInfoBanReason.None?
  {
    Blog(newId, dto.name, dto.description, dto.websiteUrl, now, false,
         currentUser.id, currentUser.login, currentUser.isBanned,
         false, None, None)
  }

  /**
   * `checkPermission`: CREATE asked of the ability with the current user as
   * subject. A `ForbiddenError` becomes Forbidden with its message, any
   * other error InternalServerError.
   */
  function CheckPermission(currentUser: CurrentUser, ability: CurrentUser -> Permission): Option<HttpError>
  {
    match ability(currentUser)
    case Allowed => None
    case Denied(message) => Some(Forbidden(message))
    case Failed(message) => Some(InternalServerError(message))
  }

  /** `getBlogResponse`: the six public fields of a stored blog. */
  function GetBlogResponse(b: Blog): (r: BlogResponse)
    ensures r.id == b.id && r.name == b.name && r.description == b.description
    ensures r.websiteUrl == b.websiteUrl && r.createdAt == b.createdAt && r.isMembership == b.isMembership
  {
    BlogResponse(b.id, b.name, b.description, b.websiteUrl, b.createdAt, b.isMembership)
  }

  /** `BloggerBlogsRawSqlRepository`, as far as `createBlogs` writes to it. */
  class BloggerBlogsRepository {
    /** The blogs `createBlogs` has been asked to insert, in order. */
    var created: seq<Blog>

    constructor ()
      ensures created == []
    {
      created := [];
    }
  }

  /**
   * `execute`: a refused permission throws before the insert; otherwise the
   * built blog is inserted and the answer describes the row `createBlogs`
   * returns for it.
   */
  method Execute(
    repo: BloggerBlogsRepository, dto: CreateBloggerBlogsDto, currentUser: CurrentUser, newId: string, now: string,
    ability: CurrentUser -> Permission, createBlogs: Blog -> Blog) returns (r: Result<BlogResponse>)
    modifies repo
    ensures CheckPermission(currentUser, ability).Some? ==>
              r == Err(CheckPermission(currentUser, ability).value) && repo.created == old(repo.created)
    ensures CheckPermission(currentUser, ability).None? ==>
              repo.created == old(repo.created) + [CreateBlogsEntity(dto, currentUser, newId, now)]
              && r == Ok(GetBlogResponse(createBlogs(CreateBlogsEntity(dto, currentUser, newId, now))))
  {
    var blogsEntity := CreateBlogsEntity(dto, currentUser, newId, now);
    var denial := CheckPermission(currentUser, ability);
    if denial.Some? {
      return Err(denial.value);
    }
    repo.created := repo.created + [blogsEntity];
    var newBlog := createBlogs(blogsEntity);
    return Ok(GetBlogResponse(newBlog));
  }

  /**
   * The permission check decides alone whether the blog is created: the
   * request and the user play no part. A CASL denial is Forbidden and any
   * other failure InternalServerError, each with the error's own message.
   */
  lemma PermissionDecides(currentUser: CurrentUser, ability: CurrentUser -> Permission)
    ensures CheckPermission(currentUser, ability).None? <==> ability(currentUser).Allowed?
    ensures ability(currentUser).Denied? ==> CheckPermission(currentUser, ability) == Some(Forbidden(ability(currentUser).message))
    ensures ability(currentUser).Failed? ==> CheckPermission(currentUser, ability) == Some(InternalServerError(ability(currentUser).message))
  {
  }

  /**
   * When the repository answers with the row it inserted, the response
   * echoes the request, carries the fresh id and instant, and reports no
   * membership; nothing about the owner or the ban leaves the use case.
   */
  lemma ResponseOfStoredBlog(dto: CreateBloggerBlogsDto, currentUser: CurrentUser, newId: string, now: string)
    ensures GetBlogResponse(CreateBlogsEntity(dto, currentUser, newId, now))
            == BlogResponse(newId, dto.name, dto.description, dto.websiteUrl, now, false)
  {
  }

  /** Two users sending the same request at the same instant get the same response. */
  lemma ResponseIndependentOfOwner(dto: CreateBloggerBlogsDto, u1: CurrentUser, u2: CurrentUser, newId: string, now: string)
    ensures GetBlogResponse(CreateBlogsEntity(dto, u1, newId, now)) == GetBlogResponse(CreateBlogsEntity(dto, u2, newId, now))
  {
  }

  /**
   * The new blog never meets the entity's own declared constraints: its ban
   * reason is NULL, which `@IsNotEmpty()` with `@Length(20, 300)` refuses.
   */
  lemma NewBlogFailsEntityConstraints(dto: CreateBloggerBlogsDto, currentUser: CurrentUser, newId: string, now: string)
    ensures !ValidBlog(CreateBlogsEntity(dto, currentUser, newId, now))
  {
    NullBanReasonInvalid(CreateBlogsEntity(dto, currentUser, newId, now));
  }
}
