/**
 * The `SentEmailsTimeConfirmAndRecoverCodes` table, which records when a
 * confirmation or recovery code was mailed, and the two statements
 * `SentEmailsTimeConfirmAndRecoverCodesRepository` runs against it.
 * Instants are milliseconds since the epoch; the clock is a parameter.
 */
module SentEmails {
  import opened Wrappers
  import opened Seqs

  /** The columns of a `Users` row the insert reads. */
  datatype UserRow = UserRow(userId: string, email: string)

  /**
   * One sent-code row. `expirationDate` is not written by the insert; it
   * holds whatever the column's default gives, and SQL NULL is `None`.
   */
  datatype SentEmailRow = SentEmailRow(
    codeId: string,
    userId: string,
    email: string,
    sentConfirmCodeTime: int,
    expirationDate: Option<int>)

  /** `u."email" = $4` */
  function WithEmail(email: string): UserRow -> bool
  {
    (u: UserRow) => u.email == email
  }

  /**
   * `"userId" = $1 OR "expirationDate" < $2`. A NULL expiration date makes
   * the comparison unknown, so such a row is deleted only for its user.
   */
  function RemovedFor(userId: string, now: int): SentEmailRow -> bool
  {
    (r: SentEmailRow) => r.userId == userId || (r.expirationDate.Some? && r.expirationDate.value < now)
  }

  /** The rows `INSERT ... SELECT $1, u."userId", $2, $3 FROM "Users" u` produces, one per user. */
  function SentRows(users: seq<UserRow>, codeId: string, email: string, now: int, expirationDefault: Option<int>): (r: seq<SentEmailRow>)
    ensures |r| == |users|
    ensures forall i :: 0 <= i < |users| ==>
              r[i] == SentEmailRow(codeId, users[i].userId, email, now, expirationDefault)
  {
    seq(|users|, i requires 0 <= i < |users| => SentEmailRow(codeId, users[i].userId, email, now, expirationDefault))
  }

  class SentEmailsTable {
    var rows: seq<SentEmailRow>

    constructor ()
      ensures rows == []
    {
      rows := [];
    }

    /**
     * `addConfirmationCode`: one row per user with that email, carrying the
     * code, that user's id, the email and the current time; RETURNING gives
     * the code once per inserted row. A failing statement (`dbError`)
     * inserts nothing and is answered with InternalServerError.
     */
    method AddConfirmationCode(
      codeId: string, email: string, users: seq<UserRow>, now: int, expirationDefault: Option<int>,
      dbError: Option<string>) returns (r: Result<seq<string>>)
      modifies this
      ensures dbError.Some? ==> r == Err(InternalServerError(dbError.value)) && rows == old(rows)
      ensures dbError.None? ==>
                rows == old(rows) + SentRows(Filter(users, WithEmail(email)), codeId, email, now, expirationDefault)
                && r.Ok? && |r.value| == Count(users, WithEmail(email))
                && forall i :: 0 <= i < |r.value| ==> r.value[i] == codeId
    {
      if dbError.Some? {
        return Err(InternalServerError(dbError.value));
      }
      var inserted := SentRows(Filter(users, WithEmail(email)), codeId, email, now, expirationDefault);
      rows := rows + inserted;
      r := Ok(seq(|inserted|, i requires 0 <= i < |inserted| => inserted[i].codeId));
    }

    /**
     * `removeSentEmailsTimeByUserId`: delete the user's rows and every
     * expired row. The driver's answer is always truthy; a failing
     * statement deletes nothing and is answered with NotFound.
     */
    method RemoveSentEmailsTimeByUserId(userId: string, now: int, dbError: Option<string>) returns (r: Result<bool>)
      modifies this
      ensures dbError.Some? ==> r == Err(NotFound(dbError.value)) && rows == old(rows)
      ensures dbError.None? ==>
                r == Ok(true)
                && rows == Filter(old(rows), Not(RemovedFor(userId, now)))
                && multiset(old(rows)) == multiset(rows) + multiset(Filter(old(rows), RemovedFor(userId, now)))
    {
      if dbError.Some? {
        return Err(NotFound(dbError.value));
      }
      FilterSplit(rows, RemovedFor(userId, now));
      rows := Filter(rows, Not(RemovedFor(userId, now)));
      return Ok(true);
    }
  }

  /**
   * The insert adds nothing exactly when no user has that email, and every
   * row it adds belongs to a user with that email.
   */
  lemma SentRowsExactlyForEmail(users: seq<UserRow>, codeId: string, email: string, now: int, expirationDefault: Option<int>)
    ensures SentRows(Filter(users, WithEmail(email)), codeId, email, now, expirationDefault) == []
            <==> forall u :: u in users ==> u.email != email
    ensures forall r :: r in SentRows(Filter(users, WithEmail(email)), codeId, email, now, expirationDefault) ==>
              UserRow(r.userId, email) in users && r.codeId == codeId && r.sentConfirmCodeTime == now
  {
    CountZero(users, WithEmail(email));
    var matching := Filter(users, WithEmail(email));
    var sent := SentRows(matching, codeId, email, now, expirationDefault);
    forall r | r in sent
      ensures UserRow(r.userId, email) in users
    {
      var i :| 0 <= i < |sent| && sent[i] == r;
      assert matching[i] in users && matching[i].email == email;
      assert matching[i] == UserRow(r.userId, email);
    }
  }

  /**
   * What the delete keeps: exactly the rows of other users that have not
   * expired (a NULL expiration date never counts as expired). Rows of other
   * users are deleted too once they have expired.
   */
  lemma RemoveKeepsExactly(rows: seq<SentEmailRow>, userId: string, now: int, x: SentEmailRow)
    ensures x in Filter(rows, Not(RemovedFor(userId, now))) <==>
              x in rows && x.userId != userId && (x.expirationDate.None? || x.expirationDate.value >= now)
  {
    FilterIn(rows, Not(RemovedFor(userId, now)), x);
  }
}
