/**
 * `CreateDeviceUseCase`: turn the claims of a freshly signed refresh token
 * into a session row and hand it, with an upsert filter, to the device
 * repository. That repository (`SecurityDevicesRepository`) is not part of
 * this model: its upsert is a parameter, and its answer is returned as is.
 */
module CreateDevice {
  import opened SecurityDevices

  /** The upsert filter `{ userId, deviceId }`. */
  datatype DeviceFilter = DeviceFilter(userId: string, deviceId: string)

  datatype CreateDeviceCommand = CreateDeviceCommand(newPayload: Payload, clientIp: string, userAgent: string)

  /** JWT `iat`/`exp` are seconds; `new Date(seconds * 1000)` is a millisecond instant. */
  function SecondsToMillis(seconds: int): int
  {
    seconds * 1000
  }

  /** The inverse conversion: the whole seconds of an instant (floor division). */
  function MillisToSeconds(millis: int): int
  {
    millis / 1000
  }

  function UpsertFilter(command: CreateDeviceCommand): (f: DeviceFilter)
    ensures f.userId == command.newPayload.userId && f.deviceId == command.newPayload.deviceId
  {
    DeviceFilter(command.newPayload.userId, command.newPayload.deviceId)
  }

  /** The session row: owner and device from the token, ip and title from the request. */
  function NewDevice(command: CreateDeviceCommand): (d: Device)
    ensures d.userId == command.newPayload.userId && d.deviceId == command.newPayload.deviceId
    ensures d.ip == command.clientIp && d.title == command.userAgent
    ensures MillisToSeconds(d.lastActiveDate) == command.newPayload.iat
    ensures MillisToSeconds(d.expirationDate) == command.newPayload.exp
    ensures d.lastActiveDate % 1000 == 0 && d.expirationDate % 1000 == 0
    ensures command.newPayload.iat <= command.newPayload.exp ==> d.lastActiveDate <= d.expirationDate
  {
    Device(
      command.newPayload.userId,
      command.newPayload.deviceId,
      command.clientIp,
      command.userAgent,
      SecondsToMillis(command.newPayload.iat),
      SecondsToMillis(command.newPayload.exp))
  }

  /** `execute`: the repository's answer for (filter, row), unchanged. */
  function Execute(command: CreateDeviceCommand, createOrUpdateDevice: (DeviceFilter, Device) -> bool): (r: bool)
    ensures r == createOrUpdateDevice(UpsertFilter(command), NewDevice(command))
  {
    createOrUpdateDevice(UpsertFilter(command), NewDevice(command))
  }

  /**
   * Upserted into the raw-SQL session table (`ON CONFLICT ("userId", "title")`,
   * as `SecurityDevicesRawSqlRepository.createOrUpdateDevice` writes it), the
   * row built from a token is among the rows `findDeviceByDeviceId` returns
   * at every instant up to the token's expiry, and at no instant after it.
   * The use case itself writes through `SecurityDevicesRepository`, whose
   * `{ userId, deviceId }`-keyed upsert is not part of this model.
   */
  lemma UpsertedDeviceLiveUntilExpiry(rows: seq<Device>, command: CreateDeviceCommand, now: int)
    requires Seqs.Unique(rows, DeviceKey)
    ensures NewDevice(command) in Seqs.Filter(Seqs.Upsert(rows, NewDevice(command), DeviceKey),
                                              LiveWithDeviceId(command.newPayload.deviceId, now))
            <==> now <= SecondsToMillis(command.newPayload.exp)
  {
    var d := NewDevice(command);
    var after := Seqs.Upsert(rows, d, DeviceKey);
    Seqs.UpsertSpec(rows, d, DeviceKey);
    assert d in Seqs.Filter(after, Seqs.SameKey(DeviceKey, DeviceKey(d)));
    Seqs.FilterIn(after, Seqs.SameKey(DeviceKey, DeviceKey(d)), d);
    Seqs.FilterIn(after, LiveWithDeviceId(command.newPayload.deviceId, now), d);
  }
}
