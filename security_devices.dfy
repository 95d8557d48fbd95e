/**
 * The `SecurityDevices` table of device sessions and the eight statements
 * `SecurityDevicesRawSqlRepository` runs against it. One row per
 * (userId, title): a new login from the same user agent overwrites the
 * session of the previous one. Timestamps are milliseconds since the
 * epoch; the ISO strings the source compares are ordered the same way.
 */
module SecurityDevices {
  import opened Seqs

  /** The claims of a refresh token (`PayloadDto`); `iat` and `exp` in seconds. */
  datatype Payload = Payload(userId: string, deviceId: string, iat: int, exp: int)

  /** One session row. */
  datatype Device = Device(
    userId: string,
    deviceId: string,
    ip: string,
    title: string,
    lastActiveDate: int,
    expirationDate: int)

  /** The columns `findDevices` selects. */
  datatype DeviceView = DeviceView(ip: string, title: string, lastActiveDate: int, deviceId: string)

  /** The upsert's conflict target, `ON CONFLICT ("userId", "title")`. */
  function DeviceKey(d: Device): (string, string)
  {
    (d.userId, d.title)
  }

  function LastActive(d: Device): int
  {
    d.lastActiveDate
  }

  function View(d: Device): DeviceView
  {
    DeviceView(d.ip, d.title, d.lastActiveDate, d.deviceId)
  }

  /** `findDevices` reads at most this many rows (`LIMIT 100 OFFSET 0`). */
  const FindDevicesLimit: nat := 100

  // The WHERE clauses of the statements.

  /** `"userId" = $1 AND "expirationDate" >= now` */
  function LiveOfUser(userId: string, now: int): Device -> bool
  {
    (d: Device) => d.userId == userId && d.expirationDate >= now
  }

  /** `"deviceId" = $1 AND "expirationDate" >= now` */
  function LiveWithDeviceId(deviceId: string, now: int): Device -> bool
  {
    (d: Device) => d.deviceId == deviceId && d.expirationDate >= now
  }

  /** `"deviceId" = $1` */
  function WithDeviceId(deviceId: string): Device -> bool
  {
    (d: Device) => d.deviceId == deviceId
  }

  /** `"userId" = $1 AND "deviceId" = $2` */
  function OfUserDevice(userId: string, deviceId: string): Device -> bool
  {
    (d: Device) => d.userId == userId && d.deviceId == deviceId
  }

  /** `"userId" = $1 AND "deviceId" <> $2` */
  function OtherDevicesOfUser(userId: string, deviceId: string): Device -> bool
  {
    (d: Device) => d.userId == userId && d.deviceId != deviceId
  }

  /** `"expirationDate" <= now` */
  function ExpiredAt(now: int): Device -> bool
  {
    (d: Device) => d.expirationDate <= now
  }

  /** The live rows of one user, most recently active first. */
  function LiveSessionsByActivity(rows: seq<Device>, userId: string, now: int): (r: seq<Device>)
    ensures multiset(r) == multiset(Filter(rows, LiveOfUser(userId, now)))
    ensures SortedDesc(r, LastActive)
  {
    SortDesc(Filter(rows, LiveOfUser(userId, now)), LastActive)
  }

  function Views(ds: seq<Device>): (r: seq<DeviceView>)
    ensures |r| == |ds|
    ensures forall i :: 0 <= i < |ds| ==> r[i] == View(ds[i])
  {
    seq(|ds|, i requires 0 <= i < |ds| => View(ds[i]))
  }

  class SecurityDevicesTable {
    var rows: seq<Device>

    /** The unique index behind `ON CONFLICT ("userId", "title")`. */
    ghost predicate Valid()
      reads this
    {
      Unique(rows, DeviceKey)
    }

    constructor ()
      ensures Valid() && rows == []
    {
      rows := [];
    }

    /**
     * `createOrUpdateDevice`: INSERT ... ON CONFLICT ("userId", "title") DO UPDATE.
     * Afterwards exactly one row has the new row's (userId, title), and it is
     * the new row; rows with any other key are as before, in the same order.
     * RETURNING always yields the written row, so the answer is true.
     */
    method CreateOrUpdateDevice(d: Device) returns (ok: bool)
      requires Valid()
      modifies this
      ensures Valid()
      ensures rows == Upsert(old(rows), d, DeviceKey)
      ensures Filter(rows, SameKey(DeviceKey, DeviceKey(d))) == [d]
      ensures Filter(rows, OtherKey(DeviceKey, DeviceKey(d))) == Filter(old(rows), OtherKey(DeviceKey, DeviceKey(d)))
      ensures ok
    {
      UpsertSpec(rows, d, DeviceKey);
      rows := Upsert(rows, d, DeviceKey);
      ok := true;
    }

    /**
     * `findDevices`: the user's sessions that have not expired, most recently
     * active first, at most 100 of them, projected to ip/title/lastActiveDate/deviceId.
     * Every entry is a live session of the user; a live session left out is
     * no more recently active than any listed one, and with at most 100 live
     * sessions none is left out.
     */
    function FindDevices(payload: Payload, now: int): (r: seq<DeviceView>)
      reads this
      ensures |r| <= FindDevicesLimit
      ensures forall i, j :: 0 <= i < j < |r| ==> r[i].lastActiveDate >= r[j].lastActiveDate
      ensures forall i :: 0 <= i < |r| ==>
                exists d :: d in rows && d.userId == payload.userId && d.expirationDate >= now && r[i] == View(d)
      ensures forall d :: d in rows && d.userId == payload.userId && d.expirationDate >= now ==>
                View(d) in r || forall i :: 0 <= i < |r| ==> d.lastActiveDate <= r[i].lastActiveDate
      ensures Count(rows, LiveOfUser(payload.userId, now)) <= FindDevicesLimit ==>
                forall d :: d in rows && d.userId == payload.userId && d.expirationDate >= now ==> View(d) in r
      ensures |r| == if Count(rows, LiveOfUser(payload.userId, now)) <= FindDevicesLimit
                     then Count(rows, LiveOfUser(payload.userId, now)) else FindDevicesLimit
      ensures Valid() ==> forall i, j :: 0 <= i < j < |r| ==> r[i].title != r[j].title
    {
      var top := ListedRows(rows, payload.userId, now);
      ListedRowsLength(rows, payload.userId, now);
      ListedRowsDistinct(rows, payload.userId, now);
      ListedRowsOrdered(rows, payload.userId, now);
      ListedRowsSound(rows, payload.userId, now);
      ListedRowsTop(rows, payload.userId, now);
      ViewsCover(top);
      Views(top)
    }

    /** `findDeviceByDeviceId`: the non-expired rows with that deviceId, whoever owns them. */
    function FindDeviceByDeviceId(deviceId: string, now: int): (r: seq<Device>)
      reads this
      ensures forall d :: d in r <==> d in rows && d.deviceId == deviceId && d.expirationDate >= now
    {
      var r := Filter(rows, LiveWithDeviceId(deviceId, now));
      forall d ensures d in r <==> d in rows && LiveWithDeviceId(deviceId, now)(d) {
        FilterIn(rows, LiveWithDeviceId(deviceId, now), d);
      }
      r
    }

    /**
     * `removeDeviceByDeviceIdAfterLogout`: delete the rows of this user and
     * device. The answer tests element 0 of the driver's `[rows, rowCount]`
     * reply against null; that element is the RETURNING array, which is
     * never null, so the answer is true whether or not a row went.
     */
    method RemoveDeviceByDeviceIdAfterLogout(payload: Payload) returns (deleted: bool)
      requires Valid()
      modifies this
      ensures Valid()
      ensures rows == Filter(old(rows), Not(OfUserDevice(payload.userId, payload.deviceId)))
      ensures multiset(old(rows)) == multiset(rows) + multiset(Filter(old(rows), OfUserDevice(payload.userId, payload.deviceId)))
      ensures deleted
    {
      var sameDevice := OfUserDevice(payload.userId, payload.deviceId);
      FilterSplit(rows, sameDevice);
      FilterKeepsUnique(rows, Not(sameDevice), DeviceKey);
      rows := Filter(rows, Not(sameDevice));
      deleted := true;
    }

    /**
     * `removeDeviceByDeviceId`: '404' when no live row has that deviceId,
     * '403' when the first one belongs to another user (neither deletes);
     * otherwise every row with that deviceId is deleted, expired or not,
     * and the answer is '204' when exactly one row went, '500' otherwise.
     */
    method RemoveDeviceByDeviceId(deviceId: string, currentPayload: Payload, now: int) returns (code: string)
      requires Valid()
      modifies this
      ensures Valid()
      ensures code == "404" <==> old(FindDeviceByDeviceId(deviceId, now)) == []
      ensures code == "403" <==> old(FindDeviceByDeviceId(deviceId, now)) != []
                                  && old(FindDeviceByDeviceId(deviceId, now))[0].userId != currentPayload.userId
      ensures code == "404" || code == "403" ==> rows == old(rows)
      ensures code != "404" && code != "403" ==>
                rows == Filter(old(rows), Not(WithDeviceId(deviceId)))
                && (code == "204" <==> Count(old(rows), WithDeviceId(deviceId)) == 1)
                && (code == "500" <==> Count(old(rows), WithDeviceId(deviceId)) != 1)
    {
      var findDevice := FindDeviceByDeviceId(deviceId, now);
      if |findDevice| == 0 {
        return "404";
      } else if findDevice[0].userId != currentPayload.userId {
        return "403";
      }
      var returning := Filter(rows, WithDeviceId(deviceId));
      FilterKeepsUnique(rows, Not(WithDeviceId(deviceId)), DeviceKey);
      rows := Filter(rows, Not(WithDeviceId(deviceId)));
      code := if |returning| == 1 then "204" else "500";
    }

    /**
     * `removeDevicesExceptCurrent`: delete the user's rows whose deviceId is
     * not the current one; other users' rows stay.
     */
    method RemoveDevicesExceptCurrent(currentPayload: Payload)
      requires Valid()
      modifies this
      ensures Valid()
      ensures rows == Filter(old(rows), Not(OtherDevicesOfUser(currentPayload.userId, currentPayload.deviceId)))
      ensures forall d :: d in rows <==>
                d in old(rows) && (d.userId != currentPayload.userId || d.deviceId == currentPayload.deviceId)
    {
      var keep := Not(OtherDevicesOfUser(currentPayload.userId, currentPayload.deviceId));
      FilterKeepsUnique(rows, keep, DeviceKey);
      forall d ensures d in Filter(rows, keep) <==> d in rows && keep(d) {
        FilterIn(rows, keep, d);
      }
      rows := Filter(rows, keep);
    }

    /** `clearingDevicesWithExpiredDate`: delete exactly the rows with expirationDate <= now. */
    method ClearingDevicesWithExpiredDate(now: int)
      requires Valid()
      modifies this
      ensures Valid()
      ensures rows == Filter(old(rows), Not(ExpiredAt(now)))
      ensures forall d :: d in rows <==> d in old(rows) && d.expirationDate > now
    {
      FilterKeepsUnique(rows, Not(ExpiredAt(now)), DeviceKey);
      forall d ensures d in Filter(rows, Not(ExpiredAt(now))) <==> d in rows && Not(ExpiredAt(now))(d) {
        FilterIn(rows, Not(ExpiredAt(now)), d);
      }
      rows := Filter(rows, Not(ExpiredAt(now)));
    }

    /**
     * `removeDevicesBannedUser`: delete the user's rows that have not expired;
     * the user's expired rows survive. As in the logout, the answer tests the
     * RETURNING array against null and so is always true.
     */
    method RemoveDevicesBannedUser(userId: string, now: int) returns (deleted: bool)
      requires Valid()
      modifies this
      ensures Valid()
      ensures rows == Filter(old(rows), Not(LiveOfUser(userId, now)))
      ensures forall d :: d in rows <==> d in old(rows) && (d.userId != userId || d.expirationDate < now)
      ensures deleted
    {
      FilterKeepsUnique(rows, Not(LiveOfUser(userId, now)), DeviceKey);
      forall d ensures d in Filter(rows, Not(LiveOfUser(userId, now))) <==> d in rows && Not(LiveOfUser(userId, now))(d) {
        FilterIn(rows, Not(LiveOfUser(userId, now)), d);
      }
      rows := Filter(rows, Not(LiveOfUser(userId, now)));
      deleted := true;
    }
  }

  // ---------------------------------------------------------------------
  // Properties of the listing and of the sweep, stated on the rows
  // ---------------------------------------------------------------------

  /** The rows `findDevices` reads: the first 100 live rows of the user by activity. */
  function ListedRows(rows: seq<Device>, userId: string, now: int): seq<Device>
  {
    var live := LiveSessionsByActivity(rows, userId, now);
    if |live| <= FindDevicesLimit then live else live[..FindDevicesLimit]
  }

  /** The listed rows are at most 100, ordered by lastActiveDate, most recent first. */
  lemma ListedRowsOrdered(rows: seq<Device>, userId: string, now: int)
    ensures |ListedRows(rows, userId, now)| <= FindDevicesLimit
    ensures SortedDesc(ListedRows(rows, userId, now), LastActive)
  {
  }

  /** The listing holds every live row of the user, up to 100 of them. */
  lemma ListedRowsLength(rows: seq<Device>, userId: string, now: int)
    ensures |ListedRows(rows, userId, now)|
            == if Count(rows, LiveOfUser(userId, now)) <= FindDevicesLimit
               then Count(rows, LiveOfUser(userId, now)) else FindDevicesLimit
  {
    var live := LiveSessionsByActivity(rows, userId, now);
    assert |multiset(live)| == |multiset(Filter(rows, LiveOfUser(userId, now)))|;
  }

  /** With one row per (userId, title), the listed rows have distinct titles. */
  lemma ListedRowsDistinct(rows: seq<Device>, userId: string, now: int)
    ensures Unique(rows, DeviceKey) ==>
              forall i, j :: 0 <= i < j < |ListedRows(rows, userId, now)| ==>
                ListedRows(rows, userId, now)[i].title != ListedRows(rows, userId, now)[j].title
  {
    if Unique(rows, DeviceKey) {
      var live := LiveSessionsByActivity(rows, userId, now);
      var top := ListedRows(rows, userId, now);
      FilterKeepsUnique(rows, LiveOfUser(userId, now), DeviceKey);
      SortDescKeepsUnique(Filter(rows, LiveOfUser(userId, now)), LastActive, DeviceKey);
      ListedRowsSound(rows, userId, now);
      forall i, j | 0 <= i < j < |top| ensures top[i].title != top[j].title {
        assert top[i] == live[i] && top[j] == live[j];
        assert DeviceKey(live[i]) != DeviceKey(live[j]);
      }
    }
  }

  /** Each listed row is a live row of that user. */
  lemma ListedRowsSound(rows: seq<Device>, userId: string, now: int)
    ensures forall i :: 0 <= i < |ListedRows(rows, userId, now)| ==>
              var d := ListedRows(rows, userId, now)[i];
              d in rows && d.userId == userId && d.expirationDate >= now
  {
    var live := LiveSessionsByActivity(rows, userId, now);
    var top := ListedRows(rows, userId, now);
    forall i | 0 <= i < |top| ensures top[i] in rows && top[i].userId == userId && top[i].expirationDate >= now {
      assert top[i] == live[i];
      assert live[i] in multiset(live);
      FilterIn(rows, LiveOfUser(userId, now), top[i]);
    }
  }

  /**
   * A live row of the user that is not listed is no more recently active
   * than any listed one; with at most 100 live rows every one is listed.
   */
  lemma ListedRowsTop(rows: seq<Device>, userId: string, now: int)
    ensures forall d :: d in rows && d.userId == userId && d.expirationDate >= now ==>
              d in ListedRows(rows, userId, now)
              || forall i :: 0 <= i < |ListedRows(rows, userId, now)| ==>
                   d.lastActiveDate <= ListedRows(rows, userId, now)[i].lastActiveDate
    ensures Count(rows, LiveOfUser(userId, now)) <= FindDevicesLimit ==>
              forall d :: d in rows && d.userId == userId && d.expirationDate >= now ==> d in ListedRows(rows, userId, now)
  {
    forall d | d in rows && d.userId == userId && d.expirationDate >= now
      ensures d in ListedRows(rows, userId, now)
              || forall i :: 0 <= i < |ListedRows(rows, userId, now)| ==>
                   d.lastActiveDate <= ListedRows(rows, userId, now)[i].lastActiveDate
      ensures Count(rows, LiveOfUser(userId, now)) <= FindDevicesLimit ==> d in ListedRows(rows, userId, now)
    {
      ListedRowTop(rows, userId, now, d);
    }
  }

  lemma ListedRowTop(rows: seq<Device>, userId: string, now: int, d: Device)
    requires d in rows && d.userId == userId && d.expirationDate >= now
    ensures d in ListedRows(rows, userId, now)
            || forall i :: 0 <= i < |ListedRows(rows, userId, now)| ==>
                 d.lastActiveDate <= ListedRows(rows, userId, now)[i].lastActiveDate
    ensures Count(rows, LiveOfUser(userId, now)) <= FindDevicesLimit ==> d in ListedRows(rows, userId, now)
  {
    var live := LiveSessionsByActivity(rows, userId, now);
    var top := ListedRows(rows, userId, now);
    FilterIn(rows, LiveOfUser(userId, now), d);
    assert d in multiset(live);
    var k :| 0 <= k < |live| && live[k] == d;
    if k < |top| {
      assert top[k] == d;
    } else {
      forall i | 0 <= i < |top| ensures d.lastActiveDate <= top[i].lastActiveDate {
        assert top[i] == live[i];
      }
    }
  }

  /** The view of every row in a list is in its projection. */
  lemma ViewsCover(ds: seq<Device>)
    ensures forall d :: d in ds ==> View(d) in Views(ds)
  {
    forall d | d in ds ensures View(d) in Views(ds) {
      var k :| 0 <= k < |ds| && ds[k] == d;
      assert Views(ds)[k] == View(d);
    }
  }

  /** Sweeping twice at the same instant ends where sweeping once did. */
  lemma SweepIdempotent(rows: seq<Device>, now: int)
    ensures Filter(Filter(rows, Not(ExpiredAt(now))), Not(ExpiredAt(now))) == Filter(rows, Not(ExpiredAt(now)))
  {
    FilterIdempotent(rows, Not(ExpiredAt(now)));
  }

  /**
   * After the logout of all other devices, every remaining row of the user
   * carries the current deviceId; with one row per device, a user with
   * sessions on devices A, B and C keeps only A's.
   */
  lemma ExceptCurrentLeavesOnlyCurrent(rows: seq<Device>, userId: string, deviceId: string)
    ensures forall d :: d in Filter(rows, Not(OtherDevicesOfUser(userId, deviceId))) && d.userId == userId ==> d.deviceId == deviceId
    ensures Filter(Filter(rows, Not(OtherDevicesOfUser(userId, deviceId))), SameUser(userId))
            == Filter(rows, OfUserDevice(userId, deviceId))
  {
    var keep := Not(OtherDevicesOfUser(userId, deviceId));
    forall d | d in Filter(rows, keep) && d.userId == userId ensures d.deviceId == deviceId {
      FilterIn(rows, keep, d);
    }
    ExceptCurrentUserRows(rows, userId, deviceId);
  }

  function SameUser(userId: string): Device -> bool
  {
    (d: Device) => d.userId == userId
  }

  lemma {:induction false} ExceptCurrentUserRows(rows: seq<Device>, userId: string, deviceId: string)
    ensures Filter(Filter(rows, Not(OtherDevicesOfUser(userId, deviceId))), SameUser(userId))
            == Filter(rows, OfUserDevice(userId, deviceId))
  {
    if rows != [] {
      ExceptCurrentUserRows(rows[1..], userId, deviceId);
    }
  }

  /** A banned user's purge never removes a row that expired before now. */
  lemma BannedPurgeKeepsExpired(rows: seq<Device>, userId: string, now: int, d: Device)
    requires d in rows && d.expirationDate < now
    ensures d in Filter(rows, Not(LiveOfUser(userId, now)))
  {
    FilterIn(rows, Not(LiveOfUser(userId, now)), d);
  }
}
