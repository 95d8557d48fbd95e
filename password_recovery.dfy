/**
 * `PasswordRecoveryUseCase`: build a recovery code valid for 65 minutes,
 * store its code and expiry on the user with that email, then insert the
 * recovery record, and report whether the insert returned anything. The
 * two uuids and the two clock readings are parameters; instants are
 * milliseconds since the epoch (the ISO text form is not modelled).
 */
module PasswordRecovery {

  /** 65 minutes in milliseconds. */
  const RecoveryWindowMillis := 65 * 60 * 1000

  /** The record inserted into the recovery codes table (`EmailsRecoveryCodesEntity`). */
  datatype EmailsRecoveryCode = EmailsRecoveryCode(
    codeId: string, email: string, recoveryCode: string, expirationDate: int, createdAt: int)

  /** The two writes the use case performs, in the order it performs them. */
  datatype Write =
    | UpdateUserConfirmationCode(email: string, recoveryCode: string, expirationDate: int)
    | CreateEmailRecoveryCode(record: EmailsRecoveryCode)

  /**
   * The record, with `uuid4()` as `codeId` and `recoveryCode`, `Date.now()`
   * as `clockForExpiry` and `new Date()` as `clockForCreatedAt`.
   */
  function NewConfirmationCode(
    email: string, codeId: string, recoveryCode: string, clockForExpiry: int, clockForCreatedAt: int): (c: EmailsRecoveryCode)
    ensures c.email == email && c.codeId == codeId && c.recoveryCode == recoveryCode
    ensures c.expirationDate - clockForExpiry == 3_900_000
    ensures c.createdAt == clockForCreatedAt
  {
    EmailsRecoveryCode(codeId, email, recoveryCode, clockForExpiry + RecoveryWindowMillis, clockForCreatedAt)
  }

  /** The writes of one recovery request: the user's code first, then the record. */
  function RecoveryWrites(code: EmailsRecoveryCode): seq<Write>
  {
    [UpdateUserConfirmationCode(code.email, code.recoveryCode, code.expirationDate), CreateEmailRecoveryCode(code)]
  }

  /** The users and mails repositories, as far as this use case writes to them. */
  class RecoveryStores {
    /** The writes asked of the two repositories, in order. */
    var writes: seq<Write>

    constructor ()
      ensures writes == []
    {
      writes := [];
    }
  }

  /**
   * `execute`: the user update, then the insert; the answer is whether the
   * insert returned a non-empty list (`insertReply`).
   */
  method Execute(
    stores: RecoveryStores, email: string, codeId: string, recoveryCode: string,
    clockForExpiry: int, clockForCreatedAt: int, insertReply: seq<EmailsRecoveryCode>) returns (r: bool)
    modifies stores
    ensures stores.writes
            == old(stores.writes) + RecoveryWrites(NewConfirmationCode(email, codeId, recoveryCode, clockForExpiry, clockForCreatedAt))
    ensures r <==> |insertReply| > 0
  {
    var newConfirmationCode := NewConfirmationCode(email, codeId, recoveryCode, clockForExpiry, clockForCreatedAt);
    stores.writes := stores.writes
                     + [UpdateUserConfirmationCode(email, newConfirmationCode.recoveryCode, newConfirmationCode.expirationDate)];
    stores.writes := stores.writes + [CreateEmailRecoveryCode(newConfirmationCode)];
    r := |insertReply| != 0;
  }

  /**
   * One request writes the user before the record; both carry the same
   * code and the same expiry, 65 minutes after the clock reading, and both
   * are keyed by the requested email.
   */
  lemma WritesAgree(email: string, codeId: string, recoveryCode: string, clockForExpiry: int, clockForCreatedAt: int)
    ensures var w := RecoveryWrites(NewConfirmationCode(email, codeId, recoveryCode, clockForExpiry, clockForCreatedAt));
            |w| == 2 && w[0].UpdateUserConfirmationCode? && w[1].CreateEmailRecoveryCode?
            && w[0].email == email && w[1].record.email == email
            && w[0].recoveryCode == w[1].record.recoveryCode == recoveryCode
            && w[0].expirationDate == w[1].record.expirationDate == clockForExpiry + RecoveryWindowMillis
  {
  }

  /**
   * A code is still valid at instant `t` (its expiry lies after `t`)
   * exactly when `t` falls within 65 minutes of the clock reading.
   */
  lemma ValidForWindow(email: string, codeId: string, recoveryCode: string, clockForExpiry: int, clockForCreatedAt: int, t: int)
    ensures NewConfirmationCode(email, codeId, recoveryCode, clockForExpiry, clockForCreatedAt).expirationDate > t
            <==> t - clockForExpiry < RecoveryWindowMillis
  {
  }
}
