# nest-type-orm: sessions, ratings, posts and permission checks in Dafny

This project models the core of a NestJS/TypeORM blogging backend:

- **Session table.** One row per (user, user-agent title), covering login upsert, listing, logout, per-device revoke, the expiry sweep and the ban purge (`SecurityDevices`, `CreateDevice`).
- **Optional-authentication guard** for public endpoints (`NoneStatusGuard`).
- **Comment ratings.** The raw-SQL ratings table with ban flags (`LikeStatusComments`) and the ORM save path (`LikeStatusCommentsRepo`).
- **Sent-code mail records** (`SentEmails`) and the **password-recovery** use case (`PasswordRecovery`).
- **Posts.**
  - The raw-SQL repository with its visibility filters, sort direction, page window and "exactly one row" answers (`PostsRawSql`).
  - The ORM repository with like summaries (`PostsRepo`).
  - The listing use cases and their envelopes (`FindPosts`, `GetPosts`, `Paging`).
- **Comments listings** (`CommentsService`, `GetCommentsByPostId`).
- **Permission-checked use cases.**
  - Delete a post (`DeletePost`).
  - The two super-admin blog/user binds (`SaBind`).
  - Create a blog (`CreateBloggerBlog`).
- **Blog row constraints**, including the `websiteUrl` pattern (`BlogEntity`).

**Form of the model**

- Tables whose statements the source shows are classes holding a `seq` of rows, with one method per SQL statement:
  - a DELETE is a `Filter`;
  - an UPDATE is a `SetWhere`;
  - an INSERT ... ON CONFLICT is an `Upsert` (module `Seqs`).
- Where a use case writes through a repository method the source does not show, the repository is a small class that records each write it is asked for, in order.
- Pure computation is functions and lemmas.

**Inputs and parameters**

- The following are parameters: clocks, uuids, database failures (`dbError`), the order the database returns rows in under `ORDER BY "<column>"`, CASL abilities, JWT services, and every repository the source calls but does not show.
- Instants are milliseconds since the epoch. The source compares ISO strings, which are ordered the same way.

**Where the intended design and the code differ, the model follows the code:**

- A banned user's purge deletes only sessions with `expirationDate >= now`; the user's expired rows survive.
- The guard answers a banned user's token with NotFound instead of treating the caller as anonymous.
- The guard also ends every authenticated pass with `request.user = null` (see Findings).
- Who may do what is decided by CASL abilities that are not shown. The model takes each ability as a parameter and never replaces it with a fixed rule table.

## Model

| member | source | states |
|---|---|---|
| SecurityDevices.LiveSessionsByActivity | src/features/security-devices/infrastructure/security-devices-raw-sql.repository.ts:55-58 | the user's unexpired rows, as a permutation, ordered by lastActiveDate, most recent first |
| SecurityDevices.SecurityDevicesTable.CreateOrUpdateDevice | src/features/security-devices/infrastructure/security-devices-raw-sql.repository.ts:11-39 | after the upsert the new row is the only row with its (userId, title); rows with other keys are unchanged and in order; one row per key is preserved; answers true |
| SecurityDevices.SecurityDevicesTable.FindDevices | src/features/security-devices/infrastructure/security-devices-raw-sql.repository.ts:46-62 | at most 100 entries, ordered by lastActiveDate, most recent first; each entry is the view of an unexpired row of that user; a live row left out is no more recent than any listed one; with at most 100 live rows, none is left out; it has exactly min(live rows, 100) entries, and with one row per (userId, title) no two entries share a title (via ListedRowsLength, ListedRowsDistinct) |
| SecurityDevices.SecurityDevicesTable.FindDeviceByDeviceId | src/features/security-devices/infrastructure/security-devices-raw-sql.repository.ts:111-123 | a row is returned iff it has that deviceId and has not expired, whoever owns it |
| SecurityDevices.SecurityDevicesTable.RemoveDeviceByDeviceIdAfterLogout | src/features/security-devices/infrastructure/security-devices-raw-sql.repository.ts:68-80 | exactly the rows of that user and device go, the rest stay; the answer is always true, because it tests the RETURNING array, which is never null |
| SecurityDevices.SecurityDevicesTable.RemoveDeviceByDeviceId | src/features/security-devices/infrastructure/security-devices-raw-sql.repository.ts:86-105 | '404' iff no live row has the deviceId, '403' iff the first live one is another user's, and neither deletes; otherwise every row with the deviceId goes, '204' iff exactly one did, else '500' |
| SecurityDevices.SecurityDevicesTable.RemoveDevicesExceptCurrent | src/features/security-devices/infrastructure/security-devices-raw-sql.repository.ts:130-138 | a row stays iff it belongs to another user or carries the current deviceId |
| SecurityDevices.SecurityDevicesTable.ClearingDevicesWithExpiredDate | src/features/security-devices/infrastructure/security-devices-raw-sql.repository.ts:144-153 | a row stays iff its expirationDate is after now |
| SecurityDevices.SecurityDevicesTable.RemoveDevicesBannedUser | src/features/security-devices/infrastructure/security-devices-raw-sql.repository.ts:160-171 | a row stays iff it belongs to another user or expired before now; the answer is always true, for the same reason as at logout |
| SecurityDevices.SweepIdempotent | src/features/security-devices/infrastructure/security-devices-raw-sql.repository.ts:149-150 | sweeping twice at one instant equals sweeping once |
| SecurityDevices.ExceptCurrentLeavesOnlyCurrent | src/features/security-devices/infrastructure/security-devices-raw-sql.repository.ts:134-135 | afterwards the user's remaining rows are exactly their rows with the current deviceId |
| SecurityDevices.ExceptCurrentUserRows | src/features/security-devices/infrastructure/security-devices-raw-sql.repository.ts:134-135 | the user's rows after the delete, in order, are the rows of that user and device |
| SecurityDevices.BannedPurgeKeepsExpired | src/features/security-devices/infrastructure/security-devices-raw-sql.repository.ts:165-166 | a row that expired before now survives the banned-user purge |
| CreateDevice.UpsertFilter | src/security-devices/application/use-cases/create-device.use-case.ts:20-23 | the filter carries the token's userId and deviceId |
| CreateDevice.NewDevice | src/security-devices/application/use-cases/create-device.use-case.ts:24-31 | owner and device from the token, ip and title from the request, both instants are whole seconds in milliseconds, so lastActiveDate is exactly iat × 1000 and expirationDate exactly exp × 1000; lastActive ≤ expiry when iat ≤ exp |
| CreateDevice.Execute | src/security-devices/application/use-cases/create-device.use-case.ts:32-35 | the answer is the repository's answer for that filter and row |
| CreateDevice.UpsertedDeviceLiveUntilExpiry | src/security-devices/application/use-cases/create-device.use-case.ts:24-35 | once upserted into the raw-SQL session table (keyed on userId and title), the new session is found by its deviceId at every instant up to the token's expiry and at none after; the use case's own repository is not modelled |
| NoneStatusGuard.AccessTokenOfBearer | src/auth/guards/none-status.guard.ts:24 | the token of "scheme token" is the second field |
| NoneStatusGuard.AccessTokenNeedsSpace | src/auth/guards/none-status.guard.ts:24 | a header without a space yields no token |
| NoneStatusGuard.CanActivate | src/auth/guards/none-status.guard.ts:19-41 | the outcome and the final request.user are those of the guard's decision, as written (via NoneStatusGuard.Decide) |
| NoneStatusGuard.NoHeaderPassesUntouched | src/auth/guards/none-status.guard.ts:21-23 | with no authorization header the request passes and request.user is untouched |
| NoneStatusGuard.NeverRejects | src/auth/guards/none-status.guard.ts:19-41 | the guard never returns false; it returns true or throws |
| NoneStatusGuard.ReturnLeavesNull | src/auth/guards/none-status.guard.ts:39-40 | once past the header check, every return leaves request.user null |
| NoneStatusGuard.BannedUserNotFound | src/auth/guards/none-status.guard.ts:29 | a usable token of a banned user is answered with NotFound |
| NoneStatusGuard.LookupOnlyForUsableToken | src/auth/guards/none-status.guard.ts:25-28 | a blacklisted or invalid token never reaches the user lookup and passes |
| NoneStatusGuard.IntendedAuthenticates | src/auth/guards/none-status.guard.ts:30-37 | the corrected guard keeps the identity of an unbanned user with a usable token |
| NoneStatusGuard.IntendedAgreesOnOutcome | src/auth/guards/none-status.guard.ts:29-40 | the corrected guard has the same outcome as the written one and differs only where the written one holds null |
| NoneStatusGuard.IdentityDiscarded | src/auth/guards/none-status.guard.ts:30-39 | for "Bearer t" with a valid token of an unbanned user, the written guard ends with null and the corrected one with that user |
| LikeStatusComments.OfUserInBlogGrouping | src/features/comments/infrastructure/like-status-comments-raw-sql.repository.ts:87 | the user+blog WHERE clause means "in that blog, and by that user or on that user's comment" |
| LikeStatusComments.LikeStatusCommentsTable.UpdateLikeStatusComment | src/features/comments/infrastructure/like-status-comments-raw-sql.repository.ts:10-32 | after the upsert the new row is the only one with its (commentId, userId); other keys unchanged; one rating per key is preserved |
| LikeStatusComments.LikeStatusCommentsTable.FindOne | src/features/comments/infrastructure/like-status-comments-raw-sql.repository.ts:38-50 | a row is returned iff it matches comment, user and ban flag; the unique index leaves at most one |
| LikeStatusComments.LikeStatusCommentsTable.CountLikesDislikes | src/features/comments/infrastructure/like-status-comments-raw-sql.repository.ts:58-72 | the count is at most the rows and is zero iff no row matches comment, flag and status |
| LikeStatusComments.LikeStatusCommentsTable.ChangeBanStatusLikesCommentsByUserIdBlogId | src/features/comments/infrastructure/like-status-comments-raw-sql.repository.ts:78-89 | the flag is set on exactly the rows of that user, or on that user's comments, in that blog |
| LikeStatusComments.LikeStatusCommentsTable.ChangeBanStatusLikesCommentsByBlogId | src/features/comments/infrastructure/like-status-comments-raw-sql.repository.ts:97-108 | the flag is set on exactly the blog's rows |
| LikeStatusComments.LikeStatusCommentsTable.ChangeBanStatusCommentsLikesByUserId | src/features/comments/infrastructure/like-status-comments-raw-sql.repository.ts:116-127 | the flag is set on exactly the rows by the user or on the user's comments |
| LikeStatusComments.LikeStatusCommentsTable.RemoveLikesCommentsByBlogId | src/features/comments/infrastructure/like-status-comments-raw-sql.repository.ts:135-142 | exactly the blog's rows go; the rest stay |
| LikeStatusComments.AtMostOneRating | src/features/comments/infrastructure/like-status-comments-raw-sql.repository.ts:18 | with (commentId, userId) unique, at most one rating per comment, user and flag |
| LikeStatusComments.RatingCountsOnce | src/features/comments/infrastructure/like-status-comments-raw-sql.repository.ts:18-19 | after an upsert a status count sees the other pairs' ratings plus the new one; the replaced rating no longer counts |
| LikeStatusComments.LikesAndDislikesBounded | src/features/comments/infrastructure/like-status-comments-raw-sql.repository.ts:64-68 | likes plus dislikes of a comment never exceed its ratings |
| LikeStatusComments.BanByUserIdempotent | src/features/comments/infrastructure/like-status-comments-raw-sql.repository.ts:121-125 | the user ban applied twice equals the user ban applied once |
| LikeStatusComments.BannedUserRatingsHidden | src/features/comments/infrastructure/like-status-comments-raw-sql.repository.ts:121-125 | after a user ban none of the user's ratings is found or counted as unbanned |
| LikeStatusComments.BanHidesFromCount | src/features/comments/infrastructure/like-status-comments-raw-sql.repository.ts:64-68 | flagging rows as banned removes exactly them from every count of unbanned rows |
| LikeStatusComments.RemoveByBlogExact | src/features/comments/infrastructure/like-status-comments-raw-sql.repository.ts:139-140 | a row survives iff it was present and belongs to another blog |
| LikeStatusCommentsRepo.CreateLikeStatusCommentsEntity | src/features/comments/infrastructure/like-status-comments.repo.ts:39-71 | a fresh id and instant, the requested status, never banned, the rating user from the current user, comment, blog, post and owner from the found comment |
| LikeStatusCommentsRepo.LikeStatusCommentsStore.UpdateLikeStatusComment | src/features/comments/infrastructure/like-status-comments.repo.ts:18-36 | a failed save changes nothing and is InternalServerError with its message; otherwise the built entity is saved by id and returned |
| LikeStatusCommentsRepo.SaveFreshIdAppends | src/features/comments/infrastructure/like-status-comments.repo.ts:30-32 | saved under a fresh id the rating is appended, so the user's ratings of that comment grow by one |
| SentEmails.SentRows | src/features/mails/infrastructure/sent-email-confirmation-code-time.repository.ts:16-20 | one row per matching user, carrying the code, that user's id, the email and the current time |
| SentEmails.SentEmailsTable.AddConfirmationCode | src/features/mails/infrastructure/sent-email-confirmation-code-time.repository.ts:10-27 | a failure inserts nothing and is InternalServerError; otherwise one row per user with that email is appended and the code comes back once per row |
| SentEmails.SentEmailsTable.RemoveSentEmailsTimeByUserId | src/features/mails/infrastructure/sent-email-confirmation-code-time.repository.ts:30-43 | a failure deletes nothing and is NotFound; otherwise exactly the user's rows and the expired rows go, and the answer is true |
| SentEmails.SentRowsExactlyForEmail | src/features/mails/infrastructure/sent-email-confirmation-code-time.repository.ts:18-20 | nothing is inserted iff no user has that email; every inserted row belongs to such a user |
| SentEmails.RemoveKeepsExactly | src/features/mails/infrastructure/sent-email-confirmation-code-time.repository.ts:35-36 | a row survives iff it is another user's and has not expired; a NULL expiry never counts as expired |
| Paging.Page | src/features/posts/infrastructure/posts-raw-sql.repository.ts:32 | LIMIT/OFFSET gives min(limit, rows after offset) rows, each the row at offset + i |
| Paging.PagesTile | src/features/posts/infrastructure/posts-repo.ts:304 | with offset (pageNumber − 1) × pageSize, pages 1..n are exactly the first n × pageSize rows: none skipped, none repeated |
| Paging.RowOnItsPage | src/features/posts/infrastructure/posts-repo.ts:303-304 | row i appears on page i / pageSize + 1 at position i % pageSize |
| Paging.CeilDiv | src/features/posts/application/use-cases/find-posts.use-case.ts:42 | Math.ceil(a / b): the page count holds all rows, and one page fewer would not |
| Paging.CeilDivLeast | src/features/posts/application/use-cases/get-posts.use-case.ts:42 | the page count is the least n with a ≤ n × b |
| Paging.LastPage | src/features/posts/application/use-cases/get-posts.use-case.ts:42 | the last counted page is not empty and the page after it is |
| PostsRawSql.SortDirectionCases | src/features/posts/infrastructure/posts-raw-sql.repository.ts:18-22 | ascending exactly for -1, 'ascending', 'ASCENDING', 'asc' and 'ASC', compared without coercion; everything else is descending (via PostsRawSql.SortDirection) |
| PostsRawSql.RawWindow | src/features/posts/infrastructure/posts-raw-sql.repository.ts:32-38 | the window exists iff LIMIT and OFFSET are not negative, and then skips pageNumber − 1 rows |
| PostsRawSql.PostsTable.OpenFindPosts | src/features/posts/infrastructure/posts-raw-sql.repository.ts:14-44 | a failure or a negative window is InternalServerError; otherwise the window over the visible rows in the requested order, each row in the table and neither banned |
| PostsRawSql.PostsTable.FindPostByPostId | src/features/posts/infrastructure/posts-raw-sql.repository.ts:46-65 | a found post is a visible row with that id; null on failure or when every row with that id is banned |
| PostsRawSql.PostsTable.FindPostsByBlogId | src/features/posts/infrastructure/posts-raw-sql.repository.ts:67-104 | null on any failure; otherwise the window over the blog's visible rows, all of that blog |
| PostsRawSql.PostsTable.CreatePost | src/features/posts/infrastructure/posts-raw-sql.repository.ts:106-141 | inserted and its seven columns returned iff no failure and the id is new; any failure changes nothing and is InternalServerError |
| PostsRawSql.PostsTable.UpdatePostByPostId | src/features/posts/infrastructure/posts-raw-sql.repository.ts:144-165 | the text fields of the row with that id are overwritten; true iff exactly one row was affected; failure is InternalServerError and changes nothing |
| PostsRawSql.PostsTable.TotalCountPosts | src/features/posts/infrastructure/posts-raw-sql.repository.ts:168-183 | the number of visible rows, or InternalServerError |
| PostsRawSql.PostsTable.TotalCountPostsByBlogId | src/features/posts/infrastructure/posts-raw-sql.repository.ts:185-200 | the number of the blog's visible rows, or InternalServerError |
| PostsRawSql.PostsTable.RemovePostByPostId | src/features/posts/infrastructure/posts-raw-sql.repository.ts:203-217 | exactly the row with that id goes; true iff exactly one did; failure is NotFound and changes nothing |
| PostsRawSql.AffectedOneIffPresent | src/features/posts/infrastructure/posts-raw-sql.repository.ts:161 | with the primary key, "exactly one row affected" holds iff the id exists |
| PostsRawSql.UpdateChangesOnlyText | src/features/posts/infrastructure/posts-raw-sql.repository.ts:150-153 | the update changes only title, shortDescription and content, and only of that post |
| PostsRawSql.BlogCountBounded | src/features/posts/infrastructure/posts-raw-sql.repository.ts:176-193 | the per-blog count never exceeds the overall count |
| PostsRawSql.RemoveLowersCount | src/features/posts/infrastructure/posts-raw-sql.repository.ts:206-208 | removing a post lowers the visible count by exactly its visible rows |
| PostsRawSql.RawWindowOverlaps | src/features/posts/infrastructure/posts-raw-sql.repository.ts:38 | as written, with pages of two or more rows, page 2 starts with the second row of page 1 |
| PostsRawSql.RawWindowAgrees | src/features/posts/infrastructure/posts-raw-sql.repository.ts:38 | the written window agrees with the intended one on page 1, and on every page when a page is one row |
| PostsRepo.GetBannedFlags | src/features/posts/infrastructure/posts-repo.ts:287-294 | every ban flag a listing looks for is false |
| PostsRepo.GetPagingParams | src/features/posts/infrastructure/posts-repo.ts:296-306 | the resolved sort key, the given direction, limit = pageSize and offset = (pageNumber − 1) × pageSize, never negative for a valid page |
| PostsRepo.CreatPostsEntity | src/features/posts/infrastructure/posts-repo.ts:252-276 | a fresh id and instant, the request's text, not banned, no ban date or reason, the given blog, owned by the current user |
| PostsRepo.PostsLikesAggregation | src/features/posts/infrastructure/posts-repo.ts:200-249 | one returned post per listed post, in order, each with its own id, title, shortDescription, content, blog id and name, createdAt, and its own like summary |
| PostsRepo.LikesInfoCounts | src/features/posts/infrastructure/posts-repo.ts:201-222 | the newest likes are all the post's like rows; likes count only the post's LIKE rows; likes plus dislikes never exceed the newest likes |
| PostsRepo.MyStatusRule | src/features/posts/infrastructure/posts-repo.ts:224-232 | myStatus is NONE without a current user or without a like row of the post; otherwise it is the status of the post's first like row when the current user gave it, and NONE when another user did |
| PostsRepo.MyStatusIntendedShowsOwnRating | src/features/posts/infrastructure/posts-repo.ts:224-232 | the corrected myStatus is the current user's own newest rating of the post, or NONE if they never rated it; it agrees with the written rule when the first row is theirs |
| PostsRepo.OwnRatingHidden | src/features/posts/infrastructure/posts-repo.ts:226-231 | as written, u1 disliked p1 and u2 liked it later: u1's myStatus is NONE; the corrected rule gives DISLIKE |
| PostsRepo.PostsStore.CreatePosts | src/features/posts/infrastructure/posts-repo.ts:52-81 | a failed insert changes nothing and is InternalServerError with the fixed message; otherwise exactly one row is appended, with the new id, the request's title, shortDescription and content, now as createdAt, both ban flags false, no ban date or reason, the given blog and the current user as owner; its listed columns come back |
| PostsRepo.PostsStore.GetPostsWithPagination | src/features/posts/infrastructure/posts-repo.ts:134-180 | the page of unbanned posts in the requested order with their like summaries; the count of all unbanned posts, or 0 for an empty page |
| PostsRepo.PostsStore.GetPostsInBlogWithPagination | src/features/posts/infrastructure/posts-repo.ts:84-132 | the same restricted to the blog; every listed post is of that blog |
| PostsRepo.PageOfBlog | src/features/posts/infrastructure/posts-repo.ts:100-109 | every post on a page of a blog's listing belongs to that blog |
| PostsRepo.FilterPermutation | src/features/posts/infrastructure/posts-repo.ts:149-157 | findAndCount's count does not depend on the requested order |
| FindPosts.Execute | src/features/posts/application/use-cases/find-posts.use-case.ts:21-50 | an empty page reports zero pages and zero posts; otherwise the posts unchanged, their total, and as page count the least n with total ≤ n × pageSize (the ceiling of total / pageSize, 0 for a total of 0) |
| FindPosts.NoCountNoPages | src/features/posts/application/use-cases/find-posts.use-case.ts:40-42 | a total of 0 on a non-empty page gives 0 pages |
| GetPosts.Execute | src/features/posts/application/use-cases/get-posts.use-case.ts:21-50 | the same envelope, with the page count the least n such that n pages hold the total |
| CommentsService.FindCommentById | src/features/comments/application/comments.service.ts:23-48 | NotFound iff the comment is missing or its author is banned; a found comment with an unbanned author is Ok with the first filled comment without its post info, and InternalServerError when nothing was filled |
| CommentsService.FindCommentsByPostId | src/features/comments/application/comments.service.ts:51-100 | NotFound iff the post is missing; no comments give pageNumber pages and pageNumber − 1 comments; otherwise the filled comments in order, the post owner's total and the least page count holding it |
| GetCommentsByPostId.Execute | src/features/comments/application/use-cases/get-comments-by-post-id.use-case.ts:27-66 | NotFound naming the post iff it is missing; a zero count gives the empty envelope; otherwise the comments unchanged with Math.ceil of count / pageSize pages |
| DeletePost.Execute | src/features/posts/application/use-cases/delete-post-by-post-id-and-blog-id.use-case.ts:33-48 | a refusal throws and asks for no delete; otherwise exactly the decided id is deleted and the repository's answer returned |
| DeletePost.MissingBlogFirst | src/features/posts/application/use-cases/delete-post-by-post-id-and-blog-id.use-case.ts:37-39 | a missing blog is NotFound naming the blog, whatever the post and the ability |
| DeletePost.MissingPostNext | src/features/posts/application/use-cases/delete-post-by-post-id-and-blog-id.use-case.ts:41-44 | with the blog found, a missing post is NotFound naming the post, before any permission check |
| DeletePost.DeletesExactlyWhenAllowed | src/features/posts/application/use-cases/delete-post-by-post-id-and-blog-id.use-case.ts:46-61 | a delete happens iff blog and post exist and the ability built for the post's owner lets the current user UPDATE; the found post's id is deleted |
| DeletePost.PermissionErrors | src/features/posts/application/use-cases/delete-post-by-post-id-and-blog-id.use-case.ts:62-69 | a CASL denial is Forbidden with the fixed prefix and its message; any other error is InternalServerError with its message (via DeletePost.CheckUserPermission) |
| DeletePost.OnlyOwnerDeletes | src/features/posts/application/use-cases/delete-post-by-post-id-and-blog-id.use-case.ts:55-61 | under an ability that lets a user UPDATE only themselves, only the post's owner deletes it |
| DeletePost.PostOfAnotherBlogDeleted | src/features/posts/application/use-cases/delete-post-by-post-id-and-blog-id.use-case.ts:37-48 | as written, a post of blog B is deleted through a request naming blog A |
| DeletePost.InBlogDeletesOnlyItsPosts | src/features/posts/application/use-cases/delete-post-by-post-id-and-blog-id.use-case.ts:41-44 | the corrected decision deletes only posts of the requested blog and agrees with the written one on them |
| SaBind.ExecuteById | src/features/sa/application/use-cases/sa-bind-blog-with-user-by-id.use-case.ts:31-45 | a refusal throws and asks for no bind; otherwise the found user and blog go to saBindUserAndBlog and its answer is returned |
| SaBind.Execute | src/features/sa/application/use-cases/sa-bind-blog-with-user.use-case.ts:29-43 | a refusal throws and asks for no bind; otherwise the found user and blog go to saBindBlogWithUser and its answer is returned |
| SaBind.MissingBlogFirst | src/features/sa/application/use-cases/sa-bind-blog-with-user-by-id.use-case.ts:72-79 | a missing blog is NotFound('Not found blog.'), whatever the user lookup and the ability |
| SaBind.MissingUserNext | src/features/sa/application/use-cases/sa-bind-blog-with-user.use-case.ts:61-70 | with the blog found, a missing user is NotFound('Not found user.'), before the permission check |
| SaBind.BindsExactlyWhenAllowed | src/features/sa/application/use-cases/sa-bind-blog-with-user-by-id.use-case.ts:47-61 | a bind happens iff blog and user exist and the ability lets the admin UPDATE that user; any ability failure is Forbidden with the fixed prefix (via SaBind.CheckUserPermission) |
| CreateBloggerBlog.CreateBlogsEntity | src/features/blogger-blogs/application/use-cases/create-blogger-blog.use-case.ts:46-63 | the request's fields, a fresh id and instant, the owner's id, login and ban status, no membership, not banned, no ban date or reason |
| CreateBloggerBlog.GetBlogResponse | src/features/blogger-blogs/application/use-cases/create-blogger-blog.use-case.ts:77-82 | the response carries exactly id, name, description, websiteUrl, createdAt and isMembership of the stored blog |
| CreateBloggerBlog.Execute | src/features/blogger-blogs/application/use-cases/create-blogger-blog.use-case.ts:30-44 | a refused permission throws before any insert; otherwise the built blog is inserted and the stored row's response returned |
| CreateBloggerBlog.PermissionDecides | src/features/blogger-blogs/application/use-cases/create-blogger-blog.use-case.ts:66-75 | the blog is created iff the ability allows CREATE; a denial is Forbidden and any other error InternalServerError, each with its message (via CreateBloggerBlog.CheckPermission) |
| CreateBloggerBlog.ResponseOfStoredBlog | src/features/blogger-blogs/application/use-cases/create-blogger-blog.use-case.ts:52-63 | for the row as built, the response echoes the request with the fresh id and instant and isMembership false |
| CreateBloggerBlog.ResponseIndependentOfOwner | src/features/blogger-blogs/application/use-cases/create-blogger-blog.use-case.ts:77-82 | nothing about the owner reaches the response |
| CreateBloggerBlog.NewBlogFailsEntityConstraints | src/features/blogger-blogs/application/use-cases/create-blogger-blog.use-case.ts:62 | the new blog's NULL ban reason fails the entity's own declared constraints |
| BlogEntity.FirstSlash | src/features/blogger-blogs/entities/table-blogger-blogs-raw-sql.entity.ts:24 | the host part of the URL ends at the first slash |
| BlogEntity.ValidBlogBounds | src/features/blogger-blogs/entities/table-blogger-blogs-raw-sql.entity.ts:4-72 | name 1..15, description 1..500, id and owner id 1..100, login 3..10, websiteUrl beyond the scheme and ≤ 100, ban reason 20..300 (via BlogEntity.ValidBlog) |
| BlogEntity.NullBanReasonInvalid | src/features/blogger-blogs/entities/table-blogger-blogs-raw-sql.entity.ts:68-72 | a NULL ban reason fails @IsNotEmpty (via BlogEntity.ValidBlog) |
| BlogEntity.UrlSound | src/features/blogger-blogs/entities/table-blogger-blogs-raw-sql.entity.ts:23-25 | every https URL of two or more word labels, word path segments and an optional trailing slash matches the pattern (via BlogEntity.UrlMatches) |
| BlogEntity.UrlComplete | src/features/blogger-blogs/entities/table-blogger-blogs-raw-sql.entity.ts:23-25 | every string the pattern matches is such a URL (via BlogEntity.UrlMatches) |
| BlogEntity.HostComplete | src/features/blogger-blogs/entities/table-blogger-blogs-raw-sql.entity.ts:24 | every accepted host is two or more word labels joined by dots |
| BlogEntity.PathSound | src/features/blogger-blogs/entities/table-blogger-blogs-raw-sql.entity.ts:24 | slash-led word segments with an optional trailing slash are an accepted path |
| BlogEntity.PathComplete | src/features/blogger-blogs/entities/table-blogger-blogs-raw-sql.entity.ts:24 | every accepted path is slash-led word segments with an optional trailing slash |
| PasswordRecovery.NewConfirmationCode | src/features/auth/application/use-cases/passwordRecovery.use-case.ts:21-27 | the record carries the requested email and the generated ids, expires exactly 3 900 000 ms (65 minutes) after its clock reading and is created at the other reading |
| PasswordRecovery.Execute | src/features/auth/application/use-cases/passwordRecovery.use-case.ts:19-37 | the user update and then the record insert are performed; the answer is true iff the insert returned a non-empty list |
| PasswordRecovery.WritesAgree | src/features/auth/application/use-cases/passwordRecovery.use-case.ts:28-36 | the user is written before the record, both keyed by the requested email, with the same code and the same expiry |
| PasswordRecovery.ValidForWindow | src/features/auth/application/use-cases/passwordRecovery.use-case.ts:25 | the code is unexpired at t iff t is within 65 minutes of the clock reading |

## Left out

- Clocks, uuids and the text form of instants (`toISOString`) are parameters or plain milliseconds. ISO-string comparison is taken to order like the instants.
- Repositories and services the code calls but does not show are parameters, or record-only classes: the users, blogs, comments and mails repositories, `SecurityDevicesRepository`, `KeyResolver`, `FillingCommentsDataCommand`, the JWT services and the blacklist. Their own behaviour is not modelled.
  - This includes `saBindUserAndBlog`, which the shown device repository does not define, and `saBindBlogWithUser`. Only the request and the returned answer are modelled.
  - This includes `createBlogs`: the stored row it answers with is a parameter.
- CASL abilities (`createForUserId`, `createSaUser`, `createForUser`) are parameters. The rules the factory builds are not part of this model.
- Each statement runs on its own: concurrency, transactions and atomicity between statements (for example the two writes of password recovery) are not modelled.
- Database failures appear only where the code maps them to a distinct answer. On the session and ratings statements, every failure becomes InternalServerError; the model does not carry that path.
- Sort order:
  - `ORDER BY "<sortBy>"` on a run-time column is modelled as an input `ordered` that is a permutation of the table.
  - The sort key's SQL semantics and its tie order are not modelled.
  - `findDevices` breaks ties in lastActiveDate by table order.
- SecurityDevices.SecurityDevicesTable.RemoveDeviceByDeviceId: the 403 check reads the first row of a SELECT without ORDER BY, whose order the database does not fix. The model takes the first matching row in table order.
- The TypeORM `take`/`skip` corner cases (a `take` of 0 or undefined means no limit) are not modelled. The ORM listings require pageNumber ≥ 1 and a pageSize that is not negative.
- Paging.CeilDiv, CommentsService.FindCommentsByPostId, GetCommentsByPostId.Execute, FindPosts.Execute, GetPosts.Execute: these require pageSize > 0. `Math.ceil(n / 0)` gives Infinity or NaN, which the model does not represent.
- PostsRepo.PostsLikesAggregation: the like query's global `take(3)` is not modelled. Its answer is the input `likes`, in the query's order.
- `findPostById` with its uuid-error parsing (`isInvalidUUIDError`, `extractUserIdFromError`) is not modelled: its only logic is message text matching.
- `addExtendedLikesInfoToPostsEntity`: the default `ExtendedLikesInfo` is a parameter (`emptyLikesInfo`).
- SentEmails.SentEmailsTable.AddConfirmationCode: the `expirationDate` column's default is not shown. It is a parameter (`expirationDefault`).
- LikeStatusComments.LikeStatusCommentsTable.FindOne returns whole rows, although the statement selects six of the seven columns.
- LikeStatusCommentsRepo.CreateLikeStatusCommentsEntity: the builder sets `addedAt`, while the entity declares `createdAt`. The model keeps the builder's field name.
- CommentsService.FindCommentsByPostId: the comment total comes from `totalCount(postOwnerId, false, false)`, a parameter. It is keyed by the post owner's id, as written.
- BlogEntity: some class-validator corner cases are not modelled:
  - `@IsBoolean` on the login string;
  - the slash-delimited `createdAt` and `banInfoBanDate` patterns (only their lengths are checked);
  - the boolean fields.
- BlogEntity: the builder writes `blogOwnerBanStatus` and `banInfoBanStatus`, while the entity declares `dependencyIsBanned` and `banInfoIsBanned`. The model keeps the builder's field names.
- LikeStatusComments.LikeStatusCommentsTable.ChangeBanStatusLikesCommentsByUserIdBlogId, ChangeBanStatusLikesCommentsByBlogId, ChangeBanStatusCommentsLikesByUserId, RemoveLikesCommentsByBlogId, and SentEmails.SentEmailsTable.RemoveSentEmailsTimeByUserId: these statements return the driver's raw reply (an array), not a boolean. The model reduces that reply to a success flag, which is true whenever the statement does not throw.
- SecurityDevices.SecurityDevicesTable.RemoveDevicesExceptCurrent, ClearingDevicesWithExpiredDate: these return the driver's raw reply. Their callers ignore it, so the model returns nothing.
- bcrypt hashing, mail delivery, controllers and DTO validation are outside this model.

## Findings

| source | as written | input that shows it | evidently intended | confidence | as-written member | corrected member |
|---|---|---|---|---|---|---|
| src/auth/guards/none-status.guard.ts:39 | `request.user = null` runs after the identity is assigned, so an authenticated caller always ends anonymous | header "Bearer t", a valid unblacklisted token of an unbanned user u1 | keep the identity of that user; null only when no user was found | not executed; high | NoneStatusGuard.IdentityDiscarded | NoneStatusGuard.IntendedAuthenticates |
| src/features/posts/infrastructure/posts-raw-sql.repository.ts:38 | OFFSET is `pageNumber - 1` rows, not `(pageNumber - 1) * pageSize` | pageSize 2, three posts: page 2 starts with the second post of page 1 | skip the rows of the preceding pages, as the ORM repository does | not executed; high | PostsRawSql.RawWindowOverlaps | Paging.PagesTile |
| src/features/posts/application/use-cases/delete-post-by-post-id-and-blog-id.use-case.ts:41-48 | the found post's blogId is never compared with the blogId of the request | blog "blog-a" exists; post "post-1" belongs to "blog-b"; its owner deletes it through "blog-a" | a post outside the requested blog is not found | not executed; medium | DeletePost.PostOfAnotherBlogDeleted | DeletePost.InBlogDeletesOnlyItsPosts |
| src/features/posts/infrastructure/posts-repo.ts:226-231 | myStatus is read only from the post's first (newest) like row, so it is NONE unless the current user gave that row | u1 disliked p1; u2 liked p1 later; u1 lists posts and sees myStatus NONE | myStatus is the current user's own rating of the post | not executed; medium | PostsRepo.OwnRatingHidden | PostsRepo.MyStatusIntendedShowsOwnRating |
