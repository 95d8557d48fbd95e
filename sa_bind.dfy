/**
 * The two super-admin use cases that bind a blog to a user,
 * `SaBindBlogWithUserByIdUseCase` and `SaBindBlogWithUserUseCase`. Both run
 * the same chain: find the blog, then the user, then ask the ability built
 * for the current super admin whether it may UPDATE that user, and only
 * then ask a repository for the bind. They differ in the repository that
 * binds. Lookups, the ability and the repositories' answers are parameters;
 * each repository records the binds it is asked for.
 */
module SaBind {
  import opened Wrappers

  /** The found blog (`TableBloggerBlogsRawSqlEntity`), as far as the chain carries it. */
  datatype Blog = Blog(id: string, name: string, blogOwnerId: string)

  /** The found user (`TablesUsersWithIdEntity`), as far as the chain carries it. */
  datatype User = User(userId: string, login: string)

  /** The authenticated super admin (`CurrentUserDto`). */
  datatype CurrentUser = CurrentUser(userId: string, login: string, isBanned: bool)

  const NotFoundBlog := "Not found blog."
  const NotFoundUser := "Not found user."
  const BindNotAllowed := "You are not allowed to bind this blog and user. "

  /**
   * `checkUserPermission`: the ability is built for the current user and
   * asked about UPDATE on `{ id: userId }`; whatever it throws becomes
   * Forbidden with the error's message after a fixed prefix.
   */
  function CheckUserPermission(currentUser: CurrentUser, userId: string, ability: (CurrentUser, string) -> Permission): Option<HttpError>
  {
    match ability(currentUser, userId)
    case Allowed => None
    case Denied(message) => Some(Forbidden(BindNotAllowed + message))
    case Failed(message) => Some(Forbidden(BindNotAllowed + message))
  }

  /** The chain both use cases run before the bind: the user and blog to bind, or the exception. */
  function Guard(
    id: string, userId: string, currentUser: CurrentUser,
    saFindBlogByBlogId: string -> Option<Blog>, saFindUserByUserId: string -> Option<User>,
    ability: (CurrentUser, string) -> Permission): Result<(User, Blog)>
  {
    if saFindBlogByBlogId(id).None? then Err(NotFound(NotFoundBlog))
    else if saFindUserByUserId(userId).None? then Err(NotFound(NotFoundUser))
    else match CheckUserPermission(currentUser, userId, ability)
      case Some(e) => Err(e)
      case None => Ok((saFindUserByUserId(userId).value, saFindBlogByBlogId(id).value))
  }

  /** `SecurityDevicesRawSqlRepository`, as far as `saBindUserAndBlog` writes to it. */
  class SecurityDevicesRepository {
    /** The (user, blog) pairs `saBindUserAndBlog` has been asked to bind, in order. */
    var bindRequests: seq<(User, Blog)>

    constructor ()
      ensures bindRequests == []
    {
      bindRequests := [];
    }
  }

  /** `BloggerBlogsRawSqlRepository`, as far as `saBindBlogWithUser` writes to it. */
  class BloggerBlogsRepository {
    /** The (user, blog) pairs `saBindBlogWithUser` has been asked to bind, in order. */
    var bindRequests: seq<(User, Blog)>

    constructor ()
      ensures bindRequests == []
    {
      bindRequests := [];
    }
  }

  /**
   * `SaBindBlogWithUserByIdUseCase.execute`: a refusal throws before any
   * bind; otherwise the found user and blog go to `saBindUserAndBlog` and
   * its answer (`bindReply`) is returned.
   */
  method ExecuteById(
    repo: SecurityDevicesRepository, id: string, userId: string, currentUser: CurrentUser,
    saFindBlogByBlogId: string -> Option<Blog>, saFindUserByUserId: string -> Option<User>,
    ability: (CurrentUser, string) -> Permission, bindReply: bool) returns (r: Result<bool>)
    modifies repo
    ensures Guard(id, userId, currentUser, saFindBlogByBlogId, saFindUserByUserId, ability).Err? ==>
              r == Err(Guard(id, userId, currentUser, saFindBlogByBlogId, saFindUserByUserId, ability).error)
              && repo.bindRequests == old(repo.bindRequests)
    ensures Guard(id, userId, currentUser, saFindBlogByBlogId, saFindUserByUserId, ability).Ok? ==>
              r == Ok(bindReply)
              && repo.bindRequests == old(repo.bindRequests)
                                      + [Guard(id, userId, currentUser, saFindBlogByBlogId, saFindUserByUserId, ability).value]
  {
    var blogForBind := saFindBlogByBlogId(id);
    if blogForBind.None? {
      return Err(NotFound(NotFoundBlog));
    }
    var userForBind := saFindUserByUserId(userId);
    if userForBind.None? {
      return Err(NotFound(NotFoundUser));
    }
    var denial := CheckUserPermission(currentUser, userId, ability);
    if denial.Some? {
      return Err(denial.value);
    }
    repo.bindRequests := repo.bindRequests + [(userForBind.value, blogForBind.value)];
    return Ok(bindReply);
  }

  /**
   * `SaBindBlogWithUserUseCase.execute`: the same chain, with the bind done
   * by `saBindBlogWithUser`.
   */
  method Execute(
    repo: BloggerBlogsRepository, id: string, userId: string, currentUser: CurrentUser,
    saFindBlogByBlogId: string -> Option<Blog>, saFindUserByUserId: string -> Option<User>,
    ability: (CurrentUser, string) -> Permission, bindReply: bool) returns (r: Result<bool>)
    modifies repo
    ensures Guard(id, userId, currentUser, saFindBlogByBlogId, saFindUserByUserId, ability).Err? ==>
              r == Err(Guard(id, userId, currentUser, saFindBlogByBlogId, saFindUserByUserId, ability).error)
              && repo.bindRequests == old(repo.bindRequests)
    ensures Guard(id, userId, currentUser, saFindBlogByBlogId, saFindUserByUserId, ability).Ok? ==>
              r == Ok(bindReply)
              && repo.bindRequests == old(repo.bindRequests)
                                      + [Guard(id, userId, currentUser, saFindBlogByBlogId, saFindUserByUserId, ability).value]
  {
    var blogForBan := saFindBlogByBlogId(id);
    if blogForBan.None? {
      return Err(NotFound(NotFoundBlog));
    }
    var userForBind := saFindUserByUserId(userId);
    if userForBind.None? {
      return Err(NotFound(NotFoundUser));
    }
    var denial := CheckUserPermission(currentUser, userId, ability);
    if denial.Some? {
      return Err(denial.value);
    }
    repo.bindRequests := repo.bindRequests + [(userForBind.value, blogForBan.value)];
    return Ok(bindReply);
  }

  /** A missing blog is reported first, whatever the user lookup and the ability say. */
  lemma MissingBlogFirst(
    id: string, userId: string, currentUser: CurrentUser,
    saFindBlogByBlogId: string -> Option<Blog>, saFindUserByUserId: string -> Option<User>,
    ability: (CurrentUser, string) -> Permission)
    requires saFindBlogByBlogId(id).None?
    ensures Guard(id, userId, currentUser, saFindBlogByBlogId, saFindUserByUserId, ability) == Err(NotFound(NotFoundBlog))
  {
  }

  /** With the blog found, a missing user is reported before any permission check. */
  lemma MissingUserNext(
    id: string, userId: string, currentUser: CurrentUser,
    saFindBlogByBlogId: string -> Option<Blog>, saFindUserByUserId: string -> Option<User>,
    ability: (CurrentUser, string) -> Permission)
    requires saFindBlogByBlogId(id).Some? && saFindUserByUserId(userId).None?
    ensures Guard(id, userId, currentUser, saFindBlogByBlogId, saFindUserByUserId, ability) == Err(NotFound(NotFoundUser))
  {
  }

  /**
   * A bind happens exactly when the blog and the user exist and the ability
   * lets the current user UPDATE that user; it binds the found user to the
   * found blog. Any failure of the ability, a denial or another error, is
   * Forbidden with the fixed prefix.
   */
  lemma BindsExactlyWhenAllowed(
    id: string, userId: string, currentUser: CurrentUser,
    saFindBlogByBlogId: string -> Option<Blog>, saFindUserByUserId: string -> Option<User>,
    ability: (CurrentUser, string) -> Permission)
    ensures Guard(id, userId, currentUser, saFindBlogByBlogId, saFindUserByUserId, ability).Ok? <==>
              saFindBlogByBlogId(id).Some? && saFindUserByUserId(userId).Some? && ability(currentUser, userId).Allowed?
    ensures Guard(id, userId, currentUser, saFindBlogByBlogId, saFindUserByUserId, ability).Ok? ==>
              Guard(id, userId, currentUser, saFindBlogByBlogId, saFindUserByUserId, ability).value
              == (saFindUserByUserId(userId).value, saFindBlogByBlogId(id).value)
    ensures saFindBlogByBlogId(id).Some? && saFindUserByUserId(userId).Some? && !ability(currentUser, userId).Allowed? ==>
              Guard(id, userId, currentUser, saFindBlogByBlogId, saFindUserByUserId, ability)
              == Err(Forbidden(BindNotAllowed + ability(currentUser, userId).message))
  {
  }
}
