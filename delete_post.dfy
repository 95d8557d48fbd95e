/**
 * `DeletePostByPostIdAndBlogIdUseCase`: look the blog up, then the post,
 * then ask the CASL ability built for the post's owner whether the current
 * user may UPDATE, and only then ask the posts repository to delete the
 * post. The lookups, the ability and the repository's answer are
 * parameters; the repository records the ids it is asked to delete.
 */
module DeletePost {
  import opened Wrappers

  /** The blog row; the use case only tests that it exists. */
  datatype Blog = Blog(id: string, blogOwnerId: string)

  /** The columns of the found post the use case reads. */
  datatype Post = Post(id: string, blogId: string, postOwnerId: string)

  /** The authenticated user (`CurrentUserDto`). */
  datatype CurrentUser = CurrentUser(userId: string, login: string, isBanned: bool)

  const PermissionDenied := "You do not have permission to delete a post. "

  function BlogNotFound(blogId: string): string
  {
    "Blog with id: " + blogId + " not found"
  }

  function PostNotFound(postId: string): string
  {
    "Post with id: " + postId + " not found"
  }

  /**
   * `checkUserPermission`: the ability is built for the post owner's id and
   * asked about UPDATE on `{ id: currentUser.userId }`. A `ForbiddenError`
   * becomes Forbidden, any other error InternalServerError.
   */
  function CheckUserPermission(postOwnerId: string, currentUser: CurrentUser, ability: (string, string) -> Permission): Option<HttpError>
  {
    match ability(postOwnerId, currentUser.userId)
    case Allowed => None
    case Denied(message) => Some(Forbidden(PermissionDenied + message))
    case Failed(message) => Some(InternalServerError(message))
  }

  /** What `execute` does before the delete: the id it deletes, or the exception it throws. */
  function Decide(
    blogId: string, postId: string, currentUser: CurrentUser,
    findBlogById: string -> Option<Blog>, getPostById: string -> Option<Post>,
    ability: (string, string) -> Permission): Result<string>
  {
    if findBlogById(blogId).None? then Err(NotFound(BlogNotFound(blogId)))
    else if getPostById(postId).None? then Err(NotFound(PostNotFound(postId)))
    else
      var post := getPostById(postId).value;
      match CheckUserPermission(post.postOwnerId, currentUser, ability)
      case Some(e) => Err(e)
      case None => Ok(post.id)
  }

  /** The posts repository, as far as this use case writes to it. */
  class PostsRepository {
    /** The ids `deletePostByPostId` has been asked to delete, in order. */
    var deleteRequests: seq<string>

    constructor ()
      ensures deleteRequests == []
    {
      deleteRequests := [];
    }
  }

  /**
   * `execute`: every refusal throws before the repository is touched; on
   * success the found post's id is deleted and the repository's answer
   * (`deleteReply`) is returned.
   */
  method Execute(
    repo: PostsRepository, blogId: string, postId: string, currentUser: CurrentUser,
    findBlogById: string -> Option<Blog>, getPostById: string -> Option<Post>,
    ability: (string, string) -> Permission, deleteReply: bool) returns (r: Result<bool>)
    modifies repo
    ensures Decide(blogId, postId, currentUser, findBlogById, getPostById, ability).Err? ==>
              r == Err(Decide(blogId, postId, currentUser, findBlogById, getPostById, ability).error)
              && repo.deleteRequests == old(repo.deleteRequests)
    ensures Decide(blogId, postId, currentUser, findBlogById, getPostById, ability).Ok? ==>
              r == Ok(deleteReply)
              && repo.deleteRequests == old(repo.deleteRequests)
                                        + [Decide(blogId, postId, currentUser, findBlogById, getPostById, ability).value]
  {
    var blog := findBlogById(blogId);
    if blog.None? {
      return Err(NotFound(BlogNotFound(blogId)));
    }
    var postToRemove := getPostById(postId);
    if postToRemove.None? {
      return Err(NotFound(PostNotFound(postId)));
    }
    var denial := CheckUserPermission(postToRemove.value.postOwnerId, currentUser, ability);
    if denial.Some? {
      return Err(denial.value);
    }
    repo.deleteRequests := repo.deleteRequests + [postToRemove.value.id];
    return Ok(deleteReply);
  }

  /** A missing blog is reported first, whatever the post lookup and the ability say. */
  lemma MissingBlogFirst(
    blogId: string, postId: string, currentUser: CurrentUser,
    findBlogById: string -> Option<Blog>, getPostById: string -> Option<Post>,
    ability: (string, string) -> Permission)
    requires findBlogById(blogId).None?
    ensures Decide(blogId, postId, currentUser, findBlogById, getPostById, ability) == Err(NotFound(BlogNotFound(blogId)))
  {
  }

  /** With the blog found, a missing post is reported before any permission check. */
  lemma MissingPostNext(
    blogId: string, postId: string, currentUser: CurrentUser,
    findBlogById: string -> Option<Blog>, getPostById: string -> Option<Post>,
    ability: (string, string) -> Permission)
    requires findBlogById(blogId).Some? && getPostById(postId).None?
    ensures Decide(blogId, postId, currentUser, findBlogById, getPostById, ability) == Err(NotFound(PostNotFound(postId)))
  {
  }

  /**
   * A delete happens exactly when the blog and the post exist and the
   * ability built for the post's owner lets the current user UPDATE; it is
   * the found post's id that is deleted.
   */
  lemma DeletesExactlyWhenAllowed(
    blogId: string, postId: string, currentUser: CurrentUser,
    findBlogById: string -> Option<Blog>, getPostById: string -> Option<Post>,
    ability: (string, string) -> Permission)
    ensures Decide(blogId, postId, currentUser, findBlogById, getPostById, ability).Ok? <==>
              findBlogById(blogId).Some? && getPostById(postId).Some?
              && ability(getPostById(postId).value.postOwnerId, currentUser.userId).Allowed?
    ensures Decide(blogId, postId, currentUser, findBlogById, getPostById, ability).Ok? ==>
              Decide(blogId, postId, currentUser, findBlogById, getPostById, ability).value == getPostById(postId).value.id
  {
  }

  /**
   * A refused permission is Forbidden, with the denial's message after the
   * fixed prefix, when CASL denies, and InternalServerError otherwise.
   */
  lemma PermissionErrors(
    blogId: string, postId: string, currentUser: CurrentUser,
    findBlogById: string -> Option<Blog>, getPostById: string -> Option<Post>,
    ability: (string, string) -> Permission)
    requires findBlogById(blogId).Some? && getPostById(postId).Some?
    ensures ability(getPostById(postId).value.postOwnerId, currentUser.userId).Denied? ==>
              Decide(blogId, postId, currentUser, findBlogById, getPostById, ability)
              == Err(Forbidden(PermissionDenied + ability(getPostById(postId).value.postOwnerId, currentUser.userId).message))
    ensures ability(getPostById(postId).value.postOwnerId, currentUser.userId).Failed? ==>
              Decide(blogId, postId, currentUser, findBlogById, getPostById, ability)
              == Err(InternalServerError(ability(getPostById(postId).value.postOwnerId, currentUser.userId).message))
  {
  }

  /** Under an ability that lets a user UPDATE only themselves, only the post's owner deletes it. */
  lemma OnlyOwnerDeletes(
    blogId: string, postId: string, currentUser: CurrentUser,
    findBlogById: string -> Option<Blog>, getPostById: string -> Option<Post>,
    ability: (string, string) -> Permission)
    requires forall owner, subject :: ability(owner, subject).Allowed? <==> owner == subject
    ensures Decide(blogId, postId, currentUser, findBlogById, getPostById, ability).Ok? ==>
              getPostById(postId).value.postOwnerId == currentUser.userId
  {
    DeletesExactlyWhenAllowed(blogId, postId, currentUser, findBlogById, getPostById, ability);
  }

  /**
   * As written, the found post's blog is never compared with the blog in
   * the request: a post of another blog is deleted through any existing blog.
   */
  lemma PostOfAnotherBlogDeleted()
    ensures Decide("blog-a", "post-1", CurrentUser("owner", "login", false),
                   (id: string) => Some(Blog(id, "owner")),
                   (id: string) => Some(Post(id, "blog-b", "owner")),
                   (owner: string, subject: string) => Allowed)
            == Ok("post-1")
  {
  }

  /** The intended decision: a post that is not in the requested blog is not found. */
  function DecideInBlog(
    blogId: string, postId: string, currentUser: CurrentUser,
    findBlogById: string -> Option<Blog>, getPostById: string -> Option<Post>,
    ability: (string, string) -> Permission): Result<string>
  {
    if findBlogById(blogId).None? then Err(NotFound(BlogNotFound(blogId)))
    else if getPostById(postId).None? || getPostById(postId).value.blogId != blogId then Err(NotFound(PostNotFound(postId)))
    else
      var post := getPostById(postId).value;
      match CheckUserPermission(post.postOwnerId, currentUser, ability)
      case Some(e) => Err(e)
      case None => Ok(post.id)
  }

  /**
   * The intended decision deletes only a post of the requested blog, and
   * agrees with the code as written on every post that is in it.
   */
  lemma InBlogDeletesOnlyItsPosts(
    blogId: string, postId: string, currentUser: CurrentUser,
    findBlogById: string -> Option<Blog>, getPostById: string -> Option<Post>,
    ability: (string, string) -> Permission)
    ensures DecideInBlog(blogId, postId, currentUser, findBlogById, getPostById, ability).Ok? ==>
              getPostById(postId).Some? && getPostById(postId).value.blogId == blogId
    ensures (getPostById(postId).None? || getPostById(postId).value.blogId == blogId) ==>
              DecideInBlog(blogId, postId, currentUser, findBlogById, getPostById, ability)
              == Decide(blogId, postId, currentUser, findBlogById, getPostById, ability)
  {
  }
}
