/** The one persisted entity: an alert event. */
module Events {
  import opened Wrappers
  import opened Js

  /** The columns the normaliser fills in. Timestamps are milliseconds since
      the epoch; `raw` keeps the original payload. */
  datatype EventData = EventData(
    dedupeKey: string,
    occurredAt: int,
    alertType: string,
    severity: Option<string>,
    organizationId: Option<string>,
    networkId: Option<string>,
    deviceSerial: Option<string>,
    deviceMac: Option<string>,
    deviceName: Option<string>,
    clientMac: Option<string>,
    imageUrl: Option<string>,
    details: Option<string>,
    raw: Json)

  /** A stored row: the store-assigned identifier and its columns. */
  datatype Event = Event(id: string, data: EventData)
}
